/** The node list of a work graph and the layering that Kahn's algorithm computes, as sets.
    Everything here is a specification; the algorithms are in the modules that import it. */
module WorkGraphLevels {
  import opened Optional
  import opened Graphs

  datatype Node = Node(id: string, dependsOn: seq<string>, condition: Option<string>)

  ghost predicate DistinctIds(nodes: seq<Node>) {
    forall i, j :: 0 <= i < j < |nodes| ==> nodes[i].id != nodes[j].id
  }

  function IdSet(nodes: seq<Node>): set<string> {
    set i | 0 <= i < |nodes| :: nodes[i].id
  }

  /** The dependencies of the first node called `x`. */
  function Deps(nodes: seq<Node>, x: string): seq<string> {
    if nodes == [] then []
    else if nodes[0].id == x then nodes[0].dependsOn
    else Deps(nodes[1..], x)
  }

  /** One edge from each node to each of its dependencies, missing ones included. */
  function Edges(nodes: seq<Node>): Graph {
    set i, j | 0 <= i < |nodes| && 0 <= j < |nodes[i].dependsOn| :: (nodes[i].id, nodes[i].dependsOn[j])
  }

  lemma {:induction false} DepsAt(nodes: seq<Node>, i: nat)
    requires DistinctIds(nodes) && i < |nodes|
    ensures Deps(nodes, nodes[i].id) == nodes[i].dependsOn
    decreases i
  {
    if i > 0 {
      assert nodes[0].id != nodes[i].id;
      DepsAt(nodes[1..], i - 1);
    }
  }

  lemma {:induction false} DepsOfUnknown(nodes: seq<Node>, x: string)
    requires x !in IdSet(nodes)
    ensures Deps(nodes, x) == []
  {
    if nodes != [] {
      assert nodes[0].id in IdSet(nodes);
      forall y | y in IdSet(nodes[1..])
        ensures y in IdSet(nodes)
      {
        var i :| 0 <= i < |nodes[1..]| && nodes[1..][i].id == y;
        assert nodes[i + 1].id == y;
      }
      DepsOfUnknown(nodes[1..], x);
    }
  }

  lemma EdgeIffDep(nodes: seq<Node>, a: string, b: string)
    requires DistinctIds(nodes)
    ensures (a, b) in Edges(nodes) <==> b in Deps(nodes, a)
  {
    if a in IdSet(nodes) {
      var i :| 0 <= i < |nodes| && nodes[i].id == a;
      DepsAt(nodes, i);
      if b in Deps(nodes, a) {
        var j :| 0 <= j < |nodes[i].dependsOn| && nodes[i].dependsOn[j] == b;
        assert (nodes[i].id, nodes[i].dependsOn[j]) in Edges(nodes);
      }
    } else {
      DepsOfUnknown(nodes, a);
    }
  }

  ghost predicate DepsWithin(nodes: seq<Node>, x: string, done: set<string>) {
    forall d :: d in Deps(nodes, x) ==> d in done
  }

  /** The nodes outside `done` whose dependencies all lie in `done`. */
  ghost function ReadySet(nodes: seq<Node>, done: set<string>): set<string> {
    set x | x in IdSet(nodes) && x !in done && DepsWithin(nodes, x, done)
  }

  /** Everything placed in the first `k` levels. */
  ghost function Done(nodes: seq<Node>, k: nat): set<string> {
    if k == 0 then {} else Done(nodes, k - 1) + ReadySet(nodes, Done(nodes, k - 1))
  }

  ghost function LevelSet(nodes: seq<Node>, k: nat): set<string> {
    ReadySet(nodes, Done(nodes, k))
  }

  lemma {:induction false} DoneWithinIds(nodes: seq<Node>, k: nat)
    ensures Done(nodes, k) <= IdSet(nodes)
    decreases k
  {
    if k > 0 {
      DoneWithinIds(nodes, k - 1);
    }
  }

  lemma LevelShrinksRest(nodes: seq<Node>, k: nat)
    requires LevelSet(nodes, k) != {}
    ensures |IdSet(nodes) - Done(nodes, k + 1)| < |IdSet(nodes) - Done(nodes, k)|
  {
    var rest := IdSet(nodes) - Done(nodes, k);
    var level := LevelSet(nodes, k);
    assert IdSet(nodes) - Done(nodes, k + 1) == rest - level;
    RemovingShrinks(rest, level);
  }

  /** The first empty level at or after level `k`. */
  ghost function HeightFrom(nodes: seq<Node>, k: nat): nat
    decreases |IdSet(nodes) - Done(nodes, k)|
  {
    if LevelSet(nodes, k) == {} then k
    else
      LevelShrinksRest(nodes, k);
      HeightFrom(nodes, k + 1)
  }

  ghost function Height(nodes: seq<Node>): nat {
    HeightFrom(nodes, 0)
  }

  /** Everything Kahn's algorithm can place. */
  ghost function Layered(nodes: seq<Node>): set<string> {
    Done(nodes, Height(nodes))
  }

  lemma {:induction false} DoneGrows(nodes: seq<Node>, j: nat, k: nat)
    requires j <= k
    ensures Done(nodes, j) <= Done(nodes, k)
    decreases k
  {
    if j < k {
      DoneGrows(nodes, j, k - 1);
    }
  }

  lemma LevelInDone(nodes: seq<Node>, j: nat, k: nat, x: string)
    requires j < k && x in LevelSet(nodes, j)
    ensures x in Done(nodes, k)
  {
    DoneGrows(nodes, j + 1, k);
  }

  lemma LevelIsUnique(nodes: seq<Node>, j: nat, k: nat, x: string)
    requires x in LevelSet(nodes, j) && x in LevelSet(nodes, k)
    ensures j == k
  {
    if j < k {
      LevelInDone(nodes, j, k, x);
    } else if k < j {
      LevelInDone(nodes, k, j, x);
    }
  }

  lemma {:induction false} LevelOf(nodes: seq<Node>, k: nat, x: string) returns (j: nat)
    requires x in Done(nodes, k)
    ensures j < k && x in LevelSet(nodes, j)
    decreases k
  {
    if x in Done(nodes, k - 1) {
      j := LevelOf(nodes, k - 1, x);
    } else {
      j := k - 1;
    }
  }

  lemma {:induction false} HeightFromIsEmpty(nodes: seq<Node>, k: nat)
    ensures LevelSet(nodes, HeightFrom(nodes, k)) == {}
    decreases |IdSet(nodes) - Done(nodes, k)|
  {
    if LevelSet(nodes, k) != {} {
      LevelShrinksRest(nodes, k);
      HeightFromIsEmpty(nodes, k + 1);
    }
  }

  /** A node of level `k` has a dependency chain of `k` edges below it. */
  lemma {:induction false} LongestChainExists(nodes: seq<Node>, k: nat, x: string) returns (p: seq<string>)
    requires DistinctIds(nodes) && x in LevelSet(nodes, k)
    ensures IsWalk(Edges(nodes), p) && p[0] == x && |p| == k + 1
    decreases k
  {
    if k == 0 {
      p := [x];
    } else {
      if DepsWithin(nodes, x, Done(nodes, k - 1)) {
        assert false;
      }
      var d :| d in Deps(nodes, x) && d !in Done(nodes, k - 1);
      assert d in Done(nodes, k);
      var q := LongestChainExists(nodes, k - 1, d);
      EdgeIffDep(nodes, x, d);
      ConsWalk(Edges(nodes), x, q);
      p := [x] + q;
    }
  }

  /** Each step of a dependency walk descends at least one level. */
  lemma {:induction false} WalkDescends(nodes: seq<Node>, k: nat, p: seq<string>) returns (j: nat)
    requires DistinctIds(nodes) && IsWalk(Edges(nodes), p) && p[0] in LevelSet(nodes, k)
    ensures p[|p| - 1] in LevelSet(nodes, j) && j + |p| <= k + 1
    decreases |p|
  {
    if |p| == 1 {
      j := k;
    } else {
      assert (p[0], p[1]) in Edges(nodes);
      EdgeIffDep(nodes, p[0], p[1]);
      var i := LevelOf(nodes, k, p[1]);
      SubWalk(Edges(nodes), p, 1, |p|);
      j := WalkDescends(nodes, i, p[1..]);
    }
  }

  /** The level of a node is the length, in edges, of its longest dependency chain. */
  lemma LevelIsLongestChain(nodes: seq<Node>, k: nat, x: string)
    requires DistinctIds(nodes) && x in LevelSet(nodes, k)
    ensures exists p :: IsWalk(Edges(nodes), p) && p[0] == x && |p| == k + 1
    ensures forall p :: IsWalk(Edges(nodes), p) && p[0] == x ==> |p| <= k + 1
  {
    var p := LongestChainExists(nodes, k, x);
    forall q | IsWalk(Edges(nodes), q) && q[0] == x
      ensures |q| <= k + 1
    {
      var _ := WalkDescends(nodes, k, q);
    }
  }

  /** No dependency path from `x` leads to a missing id or to a node on a cycle. */
  ghost predicate Grounded(nodes: seq<Node>, x: string) {
    forall y :: Reaches(Edges(nodes), x, y) ==> y in IdSet(nodes) && !OnCycle(nodes, y)
  }

  ghost predicate OnCycle(nodes: seq<Node>, y: string) {
    exists c :: IsClosedWalk(Edges(nodes), c) && c[0] == y
  }

  lemma LayeredIsGrounded(nodes: seq<Node>, k: nat, x: string)
    requires DistinctIds(nodes) && x in LevelSet(nodes, k)
    ensures Grounded(nodes, x)
  {
    var g := Edges(nodes);
    forall y | Reaches(g, x, y)
      ensures y in IdSet(nodes) && !OnCycle(nodes, y)
    {
      var p :| Connects(g, p, x, y);
      var j := WalkDescends(nodes, k, p);
      if OnCycle(nodes, y) {
        var c :| IsClosedWalk(g, c) && c[0] == y;
        var i := WalkDescends(nodes, j, c);
        LevelIsUnique(nodes, i, j, y);
      }
    }
  }

  ghost function Stuck(nodes: seq<Node>): set<string> {
    IdSet(nodes) - Layered(nodes)
  }

  /** Every node that cannot be placed waits for something that cannot be placed either. */
  lemma StuckWaits(nodes: seq<Node>, x: string) returns (d: string)
    requires DistinctIds(nodes) && x in Stuck(nodes)
    ensures (x, d) in Edges(nodes) && (d in Stuck(nodes) || d !in IdSet(nodes))
  {
    HeightFromIsEmpty(nodes, 0);
    if DepsWithin(nodes, x, Layered(nodes)) {
      assert false;
    }
    d :| d in Deps(nodes, x) && d !in Layered(nodes);
    EdgeIffDep(nodes, x, d);
  }

  /** From a stuck node one can walk, through stuck nodes only, to a missing id or as far as one likes. */
  lemma {:induction false} StuckWalk(nodes: seq<Node>, x: string, n: nat) returns (p: seq<string>)
    requires DistinctIds(nodes) && x in Stuck(nodes)
    ensures IsWalk(Edges(nodes), p) && p[0] == x
    ensures p[|p| - 1] !in IdSet(nodes) || (|p| == n + 1 && Elements(p) <= Stuck(nodes))
    decreases n
  {
    if n == 0 {
      p := [x];
    } else {
      var d := StuckWaits(nodes, x);
      if d !in IdSet(nodes) {
        ConsWalk(Edges(nodes), x, [d]);
        p := [x] + [d];
      } else {
        var q := StuckWalk(nodes, d, n - 1);
        ConsWalk(Edges(nodes), x, q);
        p := [x] + q;
      }
    }
  }

  lemma StuckIsNotGrounded(nodes: seq<Node>, x: string)
    requires DistinctIds(nodes) && x in Stuck(nodes)
    ensures !Grounded(nodes, x)
  {
    var g := Edges(nodes);
    var p := StuckWalk(nodes, x, |Stuck(nodes)|);
    if p[|p| - 1] !in IdSet(nodes) {
      assert Connects(g, p, x, p[|p| - 1]);
    } else {
      var i, j := Pigeonhole(p, Stuck(nodes));
      SubWalk(g, p, 0, i + 1);
      SubWalk(g, p, i, j + 1);
      var c := p[i..j + 1];
      assert IsClosedWalk(g, c) && c[0] == p[i];
      assert OnCycle(nodes, p[i]);
      assert Connects(g, p[0..i + 1], x, p[i]);
    }
  }

  /** Kahn's algorithm places exactly the nodes from which no dependency path leads to a
      missing id or to a cycle. */
  lemma LayeredIffGrounded(nodes: seq<Node>, x: string)
    requires DistinctIds(nodes)
    ensures x in Layered(nodes) <==> x in IdSet(nodes) && Grounded(nodes, x)
  {
    DoneWithinIds(nodes, Height(nodes));
    if x in Layered(nodes) {
      var k := LevelOf(nodes, Height(nodes), x);
      LayeredIsGrounded(nodes, k, x);
    } else if x in IdSet(nodes) {
      StuckIsNotGrounded(nodes, x);
    }
  }

  ghost predicate Complete(nodes: seq<Node>) {
    forall i, d :: 0 <= i < |nodes| && d in nodes[i].dependsOn ==> d in IdSet(nodes)
  }

  lemma ReachesKnown(nodes: seq<Node>, x: string, y: string)
    requires Complete(nodes) && x in IdSet(nodes) && Reaches(Edges(nodes), x, y)
    ensures y in IdSet(nodes)
  {
    var p :| Connects(Edges(nodes), p, x, y);
    ClosedSetContainsReachable(Edges(nodes), IdSet(nodes), p);
  }

  /** On an acyclic graph everything is placed exactly when no dependency is missing. */
  lemma AcyclicLayersAllIffComplete(nodes: seq<Node>)
    requires DistinctIds(nodes) && Acyclic(Edges(nodes))
    ensures Layered(nodes) == IdSet(nodes) <==> Complete(nodes)
  {
    var g := Edges(nodes);
    DoneWithinIds(nodes, Height(nodes));
    if Complete(nodes) {
      forall x | x in IdSet(nodes)
        ensures x in Layered(nodes)
      {
        forall y | Reaches(g, x, y)
          ensures y in IdSet(nodes)
        {
          ReachesKnown(nodes, x, y);
        }
        assert Grounded(nodes, x);
        LayeredIffGrounded(nodes, x);
      }
    } else {
      var i, d :| 0 <= i < |nodes| && d in nodes[i].dependsOn && d !in IdSet(nodes);
      var x := nodes[i].id;
      DepsAt(nodes, i);
      EdgeIffDep(nodes, x, d);
      ReachesSelf(g, d);
      ReachesStep(g, x, d, d);
      LayeredIffGrounded(nodes, x);
      assert x in IdSet(nodes) && x !in Layered(nodes);
    }
  }
}
