/** The three-colour depth-first search that `compile` uses to report cyclic chains. */
module CycleFinder {
  import opened Graphs
  import opened WorkGraphLevels

  datatype Color = White | Gray | Black

  /** A closed walk along dependency edges that repeats no node but its first. */
  ghost predicate IsCyclicChain(nodes: seq<Node>, c: seq<string>) {
    IsClosedWalk(Edges(nodes), c) && NoDuplicates(c[..|c| - 1])
  }

  /** Every known dependency of a finished node finished before it. */
  ghost predicate DepsFinishFirst(nodes: seq<Node>, finished: seq<string>) {
    forall i, d :: 0 <= i < |finished| && d in Deps(nodes, finished[i]) && d in IdSet(nodes) ==> d in finished[..i]
  }

  lemma FinishOne(nodes: seq<Node>, finished: seq<string>, u: string)
    requires DepsFinishFirst(nodes, finished)
    requires forall d :: d in Deps(nodes, u) && d in IdSet(nodes) ==> d in finished
    ensures DepsFinishFirst(nodes, finished + [u])
  {
    var f := finished + [u];
    forall i, d | 0 <= i < |f| && d in Deps(nodes, f[i]) && d in IdSet(nodes)
      ensures d in f[..i]
    {
      if i < |finished| {
        assert d in finished[..i] && finished[..i] == f[..i];
      } else {
        assert f[..i] == finished;
      }
    }
  }

  /** Walks among finished nodes go strictly back in finishing order. */
  lemma {:induction false} WalkGoesBack(nodes: seq<Node>, finished: seq<string>, p: seq<string>, i: nat)
      returns (j: nat)
    requires DistinctIds(nodes) && DepsFinishFirst(nodes, finished)
    requires IsWalk(Edges(nodes), p) && i < |finished| && p[0] == finished[i]
    requires forall k :: 0 <= k < |p| ==> p[k] in IdSet(nodes)
    ensures j + |p| <= i + 1 && p[|p| - 1] == finished[j]
    decreases |p|
  {
    if |p| == 1 {
      j := i;
    } else {
      assert (p[0], p[1]) in Edges(nodes);
      EdgeIffDep(nodes, p[0], p[1]);
      assert p[1] in finished[..i];
      var k :| 0 <= k < i && finished[k] == p[1];
      SubWalk(Edges(nodes), p, 1, |p|);
      j := WalkGoesBack(nodes, finished, p[1..], k);
    }
  }

  lemma ClosedWalkVertexKnown(nodes: seq<Node>, c: seq<string>, k: nat)
    requires IsClosedWalk(Edges(nodes), c) && k < |c|
    ensures c[k] in IdSet(nodes)
  {
    if k < |c| - 1 {
      assert (c[k], c[k + 1]) in Edges(nodes);
    } else {
      assert (c[0], c[1]) in Edges(nodes);
    }
  }

  /** A finishing order of all nodes rules out every cycle. */
  lemma FinishedMeansAcyclic(nodes: seq<Node>, finished: seq<string>)
    requires DistinctIds(nodes) && DepsFinishFirst(nodes, finished) && NoDuplicates(finished)
    requires IdSet(nodes) <= Elements(finished)
    ensures Acyclic(Edges(nodes))
  {
    forall c
      ensures !IsClosedWalk(Edges(nodes), c)
    {
      if IsClosedWalk(Edges(nodes), c) {
        forall k | 0 <= k < |c|
          ensures c[k] in IdSet(nodes)
        {
          ClosedWalkVertexKnown(nodes, c, k);
        }
        assert c[0] in IdSet(nodes) && c[0] in Elements(finished);
        var i :| 0 <= i < |finished| && finished[i] == c[0];
        var j := WalkGoesBack(nodes, finished, c, i);
        assert false;
      }
    }
  }

  function IndexOf(s: seq<string>, v: string): (i: nat)
    requires v in s
    ensures i < |s| && s[i] == v
  {
    if s[0] == v then 0 else 1 + IndexOf(s[1..], v)
  }

  /** The chain reported on a back edge from the top of the stack to a stacked node `v`. */
  lemma ChainIsCyclic(nodes: seq<Node>, stack: seq<string>, v: string, start: nat)
    requires IsWalk(Edges(nodes), stack) && NoDuplicates(stack)
    requires start < |stack| && stack[start] == v && (stack[|stack| - 1], v) in Edges(nodes)
    ensures IsCyclicChain(nodes, stack[start..] + [v])
  {
    SubWalk(Edges(nodes), stack, start, |stack|);
    var tail := stack[start..];
    SnocWalk(Edges(nodes), tail, v);
    assert (tail + [v])[..|tail|] == tail;
    forall i, j | 0 <= i < j < |tail|
      ensures tail[i] != tail[j]
    {
      assert stack[start + i] != stack[start + j];
    }
  }

  ghost function WhitesOf(color: map<string, Color>): set<string> {
    set x | x in color && color[x] == White
  }

  lemma PaintFirst(color: map<string, Color>, u: string)
    requires u in color && color[u] == White
    ensures WhitesOf(color[u := Gray]) == WhitesOf(color) - {u}
    ensures u in WhitesOf(color)
  {
  }

  lemma PaintAgain(color: map<string, Color>, u: string)
    requires u in color && color[u] != White
    ensures WhitesOf(color[u := Black]) == WhitesOf(color)
  {
  }

  ghost predicate Marks(color: map<string, Color>, members: seq<string>, c: Color) {
    NoDuplicates(members) && forall x :: x in members <==> x in color && color[x] == c
  }

  /** The top of the stack leaves it and joins the finished nodes. */
  lemma TurnBlack(color: map<string, Color>, stack: seq<string>, finished: seq<string>, u: string)
    requires Marks(color, stack, Gray) && Marks(color, finished, Black) && stack != [] && stack[|stack| - 1] == u
    ensures u in color && color[u] == Gray && u !in finished
    ensures Marks(color[u := Black], stack[..|stack| - 1], Gray) && Marks(color[u := Black], finished + [u], Black)
  {
    var rest := stack[..|stack| - 1];
    assert stack == rest + [u];
    assert u in stack && u !in finished;
    AppendKeepsDistinct(finished, [u]);
  }

  lemma LongerPrefix(a: seq<string>, b: seq<string>, u: string)
    requires a <= b
    ensures a <= b + [u]
  {
  }

  lemma WalkButLast(g: Graph, p: seq<string>)
    requires IsWalk(g, p)
    ensures |p| > 1 ==> IsWalk(g, p[..|p| - 1])
  {
    if |p| > 1 {
      SubWalk(g, p, 0, |p| - 1);
      assert p[0..|p| - 1] == p[..|p| - 1];
    }
  }

  /** The first `i` of `adj` that are nodes are finished. */
  ghost predicate Followed(nodes: seq<Node>, adj: seq<string>, i: nat, finished: seq<string>)
    requires i <= |adj|
  {
    forall k :: 0 <= k < i && adj[k] in IdSet(nodes) ==> adj[k] in finished
  }

  lemma StillFinished(nodes: seq<Node>, adj: seq<string>, i: nat, before: seq<string>, after: seq<string>)
    requires i < |adj| && before <= after
    ensures Followed(nodes, adj, i, before) && (adj[i] in IdSet(nodes) ==> adj[i] in after) ==> Followed(nodes, adj, i + 1, after)
  {
  }

  class CycleFinder {
    const nodes: seq<Node>
    var color: map<string, Color>
    var stack: seq<string>
    var cycles: seq<seq<string>>
    ghost var finished: seq<string>

    ghost predicate Valid()
      reads this
    {
      && DistinctIds(nodes)
      && color.Keys == IdSet(nodes)
      && NoDuplicates(stack)
      && (forall x :: x in stack <==> x in color && color[x] == Gray)
      && (stack != [] ==> IsWalk(Edges(nodes), stack))
      && NoDuplicates(finished)
      && (forall x :: x in finished <==> x in color && color[x] == Black)
      && (forall k :: 0 <= k < |cycles| ==> IsCyclicChain(nodes, cycles[k]))
      && (cycles == [] ==> DepsFinishFirst(nodes, finished))
    }

    ghost function Whites(): set<string>
      reads this
    {
      WhitesOf(color)
    }

    constructor (nodes: seq<Node>)
      requires DistinctIds(nodes)
      ensures Valid() && this.nodes == nodes && stack == [] && cycles == []
      ensures forall x :: x in color ==> color[x] == White
    {
      this.nodes := nodes;
      color := map x | x in IdSet(nodes) :: White;
      stack, cycles, finished := [], [], [];
    }

    method Dfs(u: string)
      requires Valid() && u in color && color[u] == White
      requires stack != [] ==> (stack[|stack| - 1], u) in Edges(nodes)
      modifies this
      ensures Valid() && stack == old(stack) && u in finished
      ensures Whites() <= old(Whites())
      ensures old(cycles) <= cycles && old(finished) <= finished
      decreases Whites(), 0
    {
      PushGray(u);
      FollowAll(u);
      ghost var before := finished;
      PopBlack(u);
      LongerPrefix(old(finished), before, u);
    }

    method FollowAll(u: string)
      requires Valid() && stack != [] && stack[|stack| - 1] == u
      modifies this
      ensures Valid() && stack == old(stack)
      ensures Whites() <= old(Whites())
      ensures old(cycles) <= cycles && old(finished) <= finished
      ensures cycles == [] ==> forall d :: d in Deps(nodes, u) && d in color ==> d in finished
      decreases Whites(), 2
    {
      var adj := Deps(nodes, u);
      var i := 0;
      while i < |adj|
        invariant 0 <= i <= |adj|
        invariant Valid() && stack == old(stack) && Whites() <= old(Whites())
        invariant old(cycles) <= cycles && old(finished) <= finished
        invariant cycles == [] ==> Followed(nodes, adj, i, finished)
      {
        ghost var before := finished;
        EdgeIffDep(nodes, u, adj[i]);
        Follow(u, adj[i]);
        StillFinished(nodes, adj, i, before, finished);
        i := i + 1;
      }
    }

    /** The search from every node that is still white. */
    method VisitAll()
      requires Valid() && stack == []
      modifies this
      ensures Valid() && stack == []
      ensures forall k :: 0 <= k < |nodes| ==> nodes[k].id in finished
    {
      var i := 0;
      while i < |nodes|
        invariant 0 <= i <= |nodes| && Valid() && stack == []
        invariant forall k :: 0 <= k < i ==> nodes[k].id in finished
      {
        if color[nodes[i].id] == White {
          Dfs(nodes[i].id);
        }
        i := i + 1;
      }
    }

    /** What the search does with one dependency `v` of the node `u` it is visiting. */
    method Follow(u: string, v: string)
      requires Valid() && stack != [] && stack[|stack| - 1] == u && (u, v) in Edges(nodes)
      modifies this
      ensures Valid() && stack == old(stack)
      ensures Whites() <= old(Whites())
      ensures old(cycles) <= cycles && old(finished) <= finished
      ensures cycles == [] && v in color ==> v in finished
      decreases Whites(), 1
    {
      if v in color {
        if color[v] == Gray {
          ReportChain(v);
        } else if color[v] == White {
          Dfs(v);
        }
      }
    }

    method ReportChain(v: string)
      requires Valid() && v in stack && (stack[|stack| - 1], v) in Edges(nodes)
      modifies this`cycles
      ensures Valid() && cycles != [] && old(cycles) <= cycles
    {
      var start := IndexOf(stack, v);
      ChainIsCyclic(nodes, stack, v, start);
      cycles := cycles + [stack[start..] + [v]];
    }

    method PushGray(u: string)
      requires Valid() && u in color && color[u] == White
      requires stack != [] ==> (stack[|stack| - 1], u) in Edges(nodes)
      modifies this`color, this`stack
      ensures Valid() && stack == old(stack) + [u] && color == old(color)[u := Gray]
      ensures Whites() < old(Whites())
    {
      PaintFirst(color, u);
      color := color[u := Gray];
      if stack != [] {
        SnocWalk(Edges(nodes), stack, u);
      }
      stack := stack + [u];
    }

    method PopBlack(u: string)
      requires Valid() && stack != [] && stack[|stack| - 1] == u
      requires cycles == [] ==> forall d :: d in Deps(nodes, u) && d in color ==> d in finished
      modifies this`color, this`stack, this`finished
      ensures Valid() && stack == old(stack)[..|old(stack)| - 1] && color == old(color)[u := Black]
      ensures finished == old(finished) + [u] && Whites() == old(Whites())
    {
      var rest := stack[..|stack| - 1];
      WalkButLast(Edges(nodes), stack);
      TurnBlack(color, stack, finished, u);
      if cycles == [] {
        FinishOne(nodes, finished, u);
      }
      stack := rest;
      PaintAgain(color, u);
      color := color[u := Black];
      finished := finished + [u];
    }
  }

  /** Reports a cyclic chain whenever there is a cycle, and nothing but cyclic chains. */
  method FindCycles(nodes: seq<Node>) returns (cycles: seq<seq<string>>)
    requires DistinctIds(nodes)
    ensures forall k :: 0 <= k < |cycles| ==> IsCyclicChain(nodes, cycles[k])
    ensures cycles == [] <==> Acyclic(Edges(nodes))
  {
    var finder := new CycleFinder(nodes);
    finder.VisitAll();
    cycles := finder.cycles;
    if cycles == [] {
      FinishedMeansAcyclic(nodes, finder.finished);
    } else {
      assert IsClosedWalk(Edges(nodes), cycles[0]);
    }
  }
}
