/** What the compiled levels mean: which nodes they contain, where each one sits, and exactly
    when they form a topological order. */
module WorkGraphTheorems {
  import opened Optional
  import opened Graphs
  import opened WorkGraphLevels
  import opened CycleFinder
  import opened WorkGraphCompile

  /** Every dependency of a listed node is listed in a strictly earlier level. */
  ghost predicate Topological(nodes: seq<Node>, levels: seq<seq<string>>) {
    forall k, x, d :: 0 <= k < |levels| && x in levels[k] && d in Deps(nodes, x) ==> d in Flatten(levels[..k])
  }

  lemma KahnLevelMembers(nodes: seq<Node>, k: nat)
    requires DistinctIds(nodes) && k < Height(nodes)
    ensures |KahnLevels(nodes)| == Height(nodes)
    ensures forall x :: x in KahnLevels(nodes)[k] <==> x in LevelSet(nodes, k)
  {
    LevelsUpToAt(nodes, Height(nodes), k);
    InRosterOrderMembers(nodes, LevelSet(nodes, k));
  }

  /** The Kahn levels hold exactly the grounded nodes, each once. */
  lemma KahnHoldsGroundedOnce(nodes: seq<Node>)
    requires DistinctIds(nodes)
    ensures NoDuplicates(Flatten(KahnLevels(nodes)))
    ensures forall x :: x in Flatten(KahnLevels(nodes)) <==> x in IdSet(nodes) && Grounded(nodes, x)
  {
    FlattenLevels(nodes, Height(nodes));
    forall x
      ensures x in Flatten(KahnLevels(nodes)) <==> x in IdSet(nodes) && Grounded(nodes, x)
    {
      assert x in Flatten(KahnLevels(nodes)) <==> x in Elements(Flatten(KahnLevels(nodes)));
      LayeredIffGrounded(nodes, x);
    }
  }

  /** The level index of a node is the number of edges on its longest dependency chain. */
  lemma KahnLevelIsLongestChain(nodes: seq<Node>, k: nat, x: string)
    requires DistinctIds(nodes) && k < |KahnLevels(nodes)| && x in KahnLevels(nodes)[k]
    ensures exists p :: IsWalk(Edges(nodes), p) && p[0] == x && |p| == k + 1
    ensures forall p :: IsWalk(Edges(nodes), p) && p[0] == x ==> |p| <= k + 1
  {
    LevelsUpToLength(nodes, Height(nodes));
    KahnLevelMembers(nodes, k);
    LevelIsLongestChain(nodes, k, x);
  }

  lemma LevelsUpToLength(nodes: seq<Node>, h: nat)
    ensures |LevelsUpTo(nodes, h)| == h
  {
    if h > 0 {
      LevelsUpToAt(nodes, h, 0);
    }
  }

  lemma {:induction false} LevelsUpToPrefix(nodes: seq<Node>, h: nat, k: nat)
    requires k <= h
    ensures |LevelsUpTo(nodes, h)| == h && LevelsUpTo(nodes, h)[..k] == LevelsUpTo(nodes, k)
    decreases h
  {
    LevelsUpToLength(nodes, h);
    if k < h {
      LevelsUpToPrefix(nodes, h - 1, k);
      assert LevelsUpTo(nodes, h)[..k] == LevelsUpTo(nodes, h - 1)[..k];
    }
  }

  lemma KahnIsTopological(nodes: seq<Node>)
    requires DistinctIds(nodes)
    ensures Topological(nodes, KahnLevels(nodes))
  {
    var levels := KahnLevels(nodes);
    forall k, x, d | 0 <= k < |levels| && x in levels[k] && d in Deps(nodes, x)
      ensures d in Flatten(levels[..k])
    {
      LevelsUpToLength(nodes, Height(nodes));
      KahnLevelMembers(nodes, k);
      LevelsUpToPrefix(nodes, Height(nodes), k);
      FlattenLevels(nodes, k);
      assert DepsWithin(nodes, x, Done(nodes, k));
      assert d in Elements(Flatten(LevelsUpTo(nodes, k)));
    }
  }

  /** On an acyclic graph without missing dependencies the levels list every node once,
      and every dependency strictly before its dependents. */
  lemma CompleteGraphsSort(nodes: seq<Node>)
    requires DistinctIds(nodes) && Acyclic(Edges(nodes)) && Complete(nodes)
    ensures CompiledLevels(nodes) == KahnLevels(nodes)
    ensures multiset(Flatten(CompiledLevels(nodes))) == multiset(Roster(nodes))
    ensures Topological(nodes, CompiledLevels(nodes))
  {
    AcyclicLayersAllIffComplete(nodes);
    KahnIsTopological(nodes);
    FlattenLevels(nodes, Height(nodes));
    var flat := Flatten(KahnLevels(nodes));
    forall x
      ensures x in flat <==> x in Roster(nodes)
    {
      assert x in flat <==> x in Elements(flat);
      RosterMembers(nodes, x);
    }
    SameElementsSameMultiset(flat, Roster(nodes));
  }

  function Roster(nodes: seq<Node>): seq<string> {
    seq(|nodes|, i requires 0 <= i < |nodes| => nodes[i].id)
  }

  lemma RosterMembers(nodes: seq<Node>, x: string)
    ensures x in Roster(nodes) <==> x in IdSet(nodes)
  {
    if x in IdSet(nodes) {
      var i :| 0 <= i < |nodes| && nodes[i].id == x;
      assert Roster(nodes)[i] == x;
    }
  }

  /** The returned levels are a topological order exactly when there is a cycle to report or
      nothing is missing: the stranded level that covers the remaining case never is. */
  lemma TopologicalIff(nodes: seq<Node>)
    requires DistinctIds(nodes)
    ensures Topological(nodes, CompiledLevels(nodes)) <==> !Acyclic(Edges(nodes)) || Complete(nodes)
  {
    KahnIsTopological(nodes);
    if Acyclic(Edges(nodes)) && !Complete(nodes) {
      AcyclicLayersAllIffComplete(nodes);
      DoneWithinIds(nodes, Height(nodes));
      var i, d :| 0 <= i < |nodes| && d in nodes[i].dependsOn && d !in IdSet(nodes);
      StrandedListsDangling(nodes, i, d);
    } else {
      if Acyclic(Edges(nodes)) {
        AcyclicLayersAllIffComplete(nodes);
      }
      assert CompiledLevels(nodes) == KahnLevels(nodes);
    }
  }

  lemma StrandedListsDangling(nodes: seq<Node>, i: nat, d: string)
    requires DistinctIds(nodes) && Acyclic(Edges(nodes)) && Stuck(nodes) != {}
    requires i < |nodes| && d in nodes[i].dependsOn && d !in IdSet(nodes)
    ensures !Topological(nodes, CompiledLevels(nodes))
  {
    var levels := CompiledLevels(nodes);
    var h := Height(nodes);
    var x := nodes[i].id;
    LevelsUpToLength(nodes, h);
    DepsAt(nodes, i);
    EdgeIffDep(nodes, x, d);
    ReachesSelf(Edges(nodes), d);
    ReachesStep(Edges(nodes), x, d, d);
    LayeredIffGrounded(nodes, x);
    assert x in Stuck(nodes);
    InRosterOrderMembers(nodes, Stuck(nodes));
    assert x in levels[h] && levels[..h] == KahnLevels(nodes);
    FlattenLevels(nodes, h);
    DoneWithinIds(nodes, h);
    assert d !in Elements(Flatten(KahnLevels(nodes)));
    assert d !in Flatten(levels[..h]);
  }

  /** An acyclic graph with a missing dependency whose only level lists a node beside its own dependency. */
  lemma StrandedExample()
    ensures var nodes := [Node("a", ["ghost"], None), Node("b", ["a"], None)];
            DistinctIds(nodes) && Acyclic(Edges(nodes)) && CompiledLevels(nodes) == [["a", "b"]]
  {
    var nodes := [Node("a", ["ghost"], None), Node("b", ["a"], None)];
    ExampleIsStuck(nodes);
    ExampleIsAcyclic(nodes);
    ExampleRoster(nodes);
    assert KahnLevels(nodes) == [];
    assert CompiledLevels(nodes) == [] + [InRosterOrder(nodes, Stuck(nodes))];
  }

  lemma ExampleIsStuck(nodes: seq<Node>)
    requires nodes == [Node("a", ["ghost"], None), Node("b", ["a"], None)]
    ensures DistinctIds(nodes) && Height(nodes) == 0 && Stuck(nodes) == {"a", "b"}
  {
    assert Deps(nodes, "a") == ["ghost"] && nodes[1..] == [nodes[1]] && Deps(nodes[1..], "b") == ["a"];
    assert IdSet(nodes) == {"a", "b"} by {
      assert nodes[0].id == "a" && nodes[1].id == "b";
    }
    assert "ghost" in Deps(nodes, "a") && "a" in Deps(nodes, "b");
    assert LevelSet(nodes, 0) == {};
  }

  lemma ExampleRoster(nodes: seq<Node>)
    requires nodes == [Node("a", ["ghost"], None), Node("b", ["a"], None)]
    ensures InRosterOrder(nodes, {"a", "b"}) == ["a", "b"]
  {
    assert nodes[..1] == [nodes[0]] && [nodes[0]][..0] == [];
    assert InRosterOrder([nodes[0]], {"a", "b"}) == ["a"];
    assert InRosterOrder(nodes, {"a", "b"}) == ["a"] + ["b"];
  }

  lemma ExampleIsAcyclic(nodes: seq<Node>)
    requires nodes == [Node("a", ["ghost"], None), Node("b", ["a"], None)]
    ensures Acyclic(Edges(nodes))
  {
    assert Deps(nodes, "a") == ["ghost"] && nodes[1..] == [nodes[1]] && Deps(nodes[1..], "b") == ["a"];
    var finished := ["a", "b"];
    assert IdSet(nodes) == {"a", "b"} by {
      assert nodes[0].id == "a" && nodes[1].id == "b";
    }
    assert finished[..1] == ["a"];
    FinishedMeansAcyclic(nodes, finished);
  }
}
