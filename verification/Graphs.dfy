/** Finite directed graphs as sets of edges, walks through them, and the pigeonhole
    argument that an acyclic graph has a sink in every non-empty set of vertices. */
module Graphs {
  type Graph = set<(string, string)>

  ghost predicate IsWalk(g: Graph, p: seq<string>) {
    |p| > 0 && forall i :: 0 <= i < |p| - 1 ==> (p[i], p[i + 1]) in g
  }

  ghost predicate Connects(g: Graph, p: seq<string>, from: string, to: string) {
    IsWalk(g, p) && p[0] == from && p[|p| - 1] == to
  }

  /** `to` can be reached from `from` along zero or more edges. */
  ghost predicate Reaches(g: Graph, from: string, to: string) {
    exists p :: Connects(g, p, from, to)
  }

  ghost predicate IsClosedWalk(g: Graph, p: seq<string>) {
    IsWalk(g, p) && |p| > 1 && p[0] == p[|p| - 1]
  }

  ghost predicate Acyclic(g: Graph) {
    forall p :: !IsClosedWalk(g, p)
  }

  ghost predicate NoDuplicates<T(!new)>(s: seq<T>) {
    forall i, j :: 0 <= i < j < |s| ==> s[i] != s[j]
  }

  function Elements<T(==)>(s: seq<T>): set<T> {
    set x | x in s
  }

  lemma SubWalk(g: Graph, p: seq<string>, i: nat, j: nat)
    requires IsWalk(g, p) && i < j <= |p|
    ensures IsWalk(g, p[i..j])
  {
    var q := p[i..j];
    forall k | 0 <= k < |q| - 1
      ensures (q[k], q[k + 1]) in g
    {
      assert (p[i + k], p[i + k + 1]) in g;
    }
  }

  lemma ConsWalk(g: Graph, x: string, p: seq<string>)
    requires IsWalk(g, p) && (x, p[0]) in g
    ensures IsWalk(g, [x] + p)
  {
    var q := [x] + p;
    forall k | 0 <= k < |q| - 1
      ensures (q[k], q[k + 1]) in g
    {
      if k > 0 {
        assert (p[k - 1], p[k]) in g;
      }
    }
  }

  lemma SnocWalk(g: Graph, p: seq<string>, x: string)
    requires IsWalk(g, p) && (p[|p| - 1], x) in g
    ensures IsWalk(g, p + [x])
  {
    var q := p + [x];
    forall k | 0 <= k < |q| - 1
      ensures (q[k], q[k + 1]) in g
    {
      if k < |p| - 1 {
        assert (p[k], p[k + 1]) in g;
      }
    }
  }

  lemma JoinWalks(g: Graph, p: seq<string>, q: seq<string>)
    requires IsWalk(g, p) && IsWalk(g, q) && p[|p| - 1] == q[0]
    ensures IsWalk(g, p + q[1..])
  {
    var r := p + q[1..];
    forall k | 0 <= k < |r| - 1
      ensures (r[k], r[k + 1]) in g
    {
      if k < |p| - 1 {
        assert (p[k], p[k + 1]) in g;
      } else {
        assert (q[k - |p| + 1], q[k - |p| + 2]) in g;
      }
    }
  }

  lemma ReachesTransitive(g: Graph, a: string, b: string, c: string)
    requires Reaches(g, a, b) && Reaches(g, b, c)
    ensures Reaches(g, a, c)
  {
    var p :| Connects(g, p, a, b);
    var q :| Connects(g, q, b, c);
    JoinWalks(g, p, q);
    assert Connects(g, p + q[1..], a, c);
  }

  lemma ReachesSelf(g: Graph, a: string)
    ensures Reaches(g, a, a)
  {
    assert Connects(g, [a], a, a);
  }

  lemma ReachesStep(g: Graph, a: string, b: string, c: string)
    requires (a, b) in g && Reaches(g, b, c)
    ensures Reaches(g, a, c)
  {
    var q :| Connects(g, q, b, c);
    ConsWalk(g, a, q);
    assert Connects(g, [a] + q, a, c);
  }

  /** A reachable vertex is the start itself or is reached through a first edge. */
  lemma ReachesUnfold(g: Graph, a: string, c: string) returns (b: string)
    requires Reaches(g, a, c) && a != c
    ensures (a, b) in g && Reaches(g, b, c)
  {
    var p :| Connects(g, p, a, c);
    SubWalk(g, p, 1, |p|);
    b := p[1];
    assert (p[0], p[1]) in g;
    assert Connects(g, p[1..], b, c);
  }

  /** A set closed under the edges contains everything its members reach. */
  lemma ClosedSetContainsReachable(g: Graph, s: set<string>, p: seq<string>)
    requires IsWalk(g, p) && p[0] in s
    requires forall e :: e in g && e.0 in s ==> e.1 in s
    ensures forall i :: 0 <= i < |p| ==> p[i] in s
  {
    if |p| > 1 {
      assert (p[0], p[1]) in g;
      SubWalk(g, p, 1, |p|);
      ClosedSetContainsReachable(g, s, p[1..]);
      assert forall i :: 1 <= i < |p| ==> p[i] == p[1..][i - 1];
    }
  }

  lemma ElementsOfConcat<T>(a: seq<T>, b: seq<T>)
    ensures Elements(a + b) == Elements(a) + Elements(b)
  {
  }

  lemma AppendKeepsDistinct<T(!new)>(a: seq<T>, b: seq<T>)
    requires NoDuplicates(a) && NoDuplicates(b) && forall x :: x in a ==> x !in b
    ensures NoDuplicates(a + b)
  {
    var s := a + b;
    forall i, j | 0 <= i < j < |s|
      ensures s[i] != s[j]
    {
      if i < |a| <= j {
        assert a[i] in a && b[j - |a|] in b;
      }
    }
  }

  lemma {:induction false} SizeOfElements<T(!new)>(p: seq<T>)
    requires NoDuplicates(p)
    ensures |Elements(p)| == |p|
  {
    if p == [] {
      assert Elements(p) == {};
    } else {
      var n := |p| - 1;
      var rest, last := p[..n], p[n];
      assert p == rest + [last];
      SizeOfElements(rest);
      assert last !in rest;
      assert Elements(p) == Elements(rest) + {last};
    }
  }

  lemma SubsetSize<T>(a: set<T>, b: set<T>)
    requires a <= b
    ensures |a| <= |b|
  {
    assert b == a + (b - a);
  }

  lemma RemovingShrinks<T>(a: set<T>, b: set<T>)
    requires b <= a && b != {}
    ensures |a - b| < |a|
  {
    assert a == (a - b) + b;
  }

  lemma Pigeonhole(p: seq<string>, s: set<string>) returns (i: nat, j: nat)
    requires Elements(p) <= s && |p| > |s|
    ensures i < j < |p| && p[i] == p[j]
  {
    if NoDuplicates(p) {
      SizeOfElements(p);
      SubsetSize(Elements(p), s);
      assert false;
    }
    i, j :| 0 <= i < j < |p| && p[i] == p[j];
  }

  ghost predicate HasSuccessorIn(g: Graph, s: set<string>, y: string) {
    exists z :: z in s && (y, z) in g
  }

  /** Where every vertex of `s` has a successor in `s`, walks of every length stay in `s`. */
  lemma {:induction false} LongWalk(g: Graph, s: set<string>, x: string, n: nat) returns (p: seq<string>)
    requires x in s
    requires forall y :: y in s ==> HasSuccessorIn(g, s, y)
    ensures IsWalk(g, p) && |p| == n + 1 && p[0] == x && Elements(p) <= s
    decreases n
  {
    if n == 0 {
      p := [x];
    } else {
      assert HasSuccessorIn(g, s, x);
      var z :| z in s && (x, z) in g;
      var q := LongWalk(g, s, z, n - 1);
      ConsWalk(g, x, q);
      p := [x] + q;
    }
  }

  lemma NoSinkMeansCycle(g: Graph, s: set<string>)
    requires s != {}
    requires forall y :: y in s ==> HasSuccessorIn(g, s, y)
    ensures !Acyclic(g)
  {
    var y :| y in s;
    var p := LongWalk(g, s, y, |s|);
    var i, j := Pigeonhole(p, s);
    SubWalk(g, p, i, j + 1);
    assert IsClosedWalk(g, p[i..j + 1]);
  }

  lemma AcyclicHasSink(g: Graph, s: set<string>) returns (x: string)
    requires Acyclic(g) && s != {}
    ensures x in s && forall z :: z in s ==> (x, z) !in g
  {
    if forall y :: y in s ==> HasSuccessorIn(g, s, y) {
      NoSinkMeansCycle(g, s);
      assert false;
    }
    x :| x in s && !HasSuccessorIn(g, s, x);
  }

  /** A walk that uses a new edge splits at it: it either was a walk before, or it reaches
      the tail of the new edge and continues from its head. */
  lemma {:induction false} WalkAfterInsert(g: Graph, t: string, d: string, p: seq<string>)
    requires IsWalk(g + {(t, d)}, p)
    ensures var last := p[|p| - 1];
            Reaches(g, p[0], last) || (Reaches(g, p[0], t) && Reaches(g, d, last))
    decreases |p|
  {
    var h := g + {(t, d)};
    if |p| == 1 {
      ReachesSelf(g, p[0]);
    } else {
      var last := p[|p| - 1];
      SubWalk(h, p, 1, |p|);
      WalkAfterInsert(g, t, d, p[1..]);
      assert (p[0], p[1]) in h && p[1..][|p| - 2] == last;
      if (p[0], p[1]) in g {
        if Reaches(g, p[1], last) {
          ReachesStep(g, p[0], p[1], last);
        } else {
          ReachesStep(g, p[0], p[1], t);
        }
      } else {
        ReachesSelf(g, t);
      }
    }
  }

  lemma ReachesNeverCloses(g: Graph, a: string, b: string)
    requires Acyclic(g) && (a, b) in g
    ensures !Reaches(g, b, a)
  {
    if Reaches(g, b, a) {
      var p :| Connects(g, p, b, a);
      ConsWalk(g, a, p);
      assert IsClosedWalk(g, [a] + p);
    }
  }

  /** Inserting an edge keeps a graph acyclic exactly when its head does not already reach its tail. */
  lemma InsertKeepsAcyclic(g: Graph, t: string, d: string)
    requires Acyclic(g)
    ensures Acyclic(g + {(t, d)}) <==> !Reaches(g, d, t)
  {
    var h := g + {(t, d)};
    if Reaches(g, d, t) {
      var p :| Connects(g, p, d, t);
      assert IsWalk(h, p);
      ConsWalk(h, t, p);
      assert IsClosedWalk(h, [t] + p);
    } else {
      forall p
        ensures !IsClosedWalk(h, p)
      {
        if IsClosedWalk(h, p) {
          SubWalk(h, p, 1, |p|);
          WalkAfterInsert(g, t, d, p[1..]);
          var a, b := p[0], p[1];
          assert (a, b) in h && p[1..][|p| - 2] == a;
          if (a, b) in g {
            ReachesNeverCloses(g, a, b);
            assert Reaches(g, b, t) && Reaches(g, d, a);
            ReachesStep(g, a, b, t);
            ReachesTransitive(g, d, a, t);
          }
          assert false;
        }
      }
    }
  }
}
