/** Finite directed graphs over element ids: walks, reachability, loop erasure
    and the rank that makes recursion over an acyclic graph terminate. */
module Graph {

  type Graph = map<string, seq<string>>

  predicate Edge(g: Graph, x: string, y: string) {
    x in g && y in g && y in g[x]
  }

  predicate IsWalk(g: Graph, w: seq<string>) {
    && w != []
    && (forall i | 0 <= i < |w| :: w[i] in g)
    && (forall i | 0 <= i < |w| - 1 :: Edge(g, w[i], w[i + 1]))
  }

  ghost predicate WalkBetween(g: Graph, w: seq<string>, x: string, y: string) {
    IsWalk(g, w) && w[0] == x && w[|w| - 1] == y
  }

  ghost predicate Reaches(g: Graph, x: string, y: string) {
    exists w :: WalkBetween(g, w, x, y)
  }

  predicate Simple(w: seq<string>) {
    forall i, j | 0 <= i < j < |w| :: w[i] != w[j]
  }

  function Elems(w: seq<string>): (s: set<string>) {
    set i | 0 <= i < |w| :: w[i]
  }

  ghost function ReachSet(g: Graph, x: string): set<string> {
    set y | y in g && Reaches(g, x, y)
  }

  /** No edge of the part of the graph that x reaches lies on a cycle. */
  ghost predicate AcyclicFrom(g: Graph, x: string) {
    forall y, z | Reaches(g, x, y) && Edge(g, y, z) :: !Reaches(g, z, y)
  }

  ghost predicate Acyclic(g: Graph) {
    forall y, z | Edge(g, y, z) :: !Reaches(g, z, y)
  }

  lemma ReachesSelf(g: Graph, x: string)
    requires x in g
    ensures Reaches(g, x, x)
  {
    assert WalkBetween(g, [x], x, x);
  }

  lemma ConcatWalks(g: Graph, v: seq<string>, w: seq<string>)
    requires IsWalk(g, v) && IsWalk(g, w) && Edge(g, v[|v| - 1], w[0])
    ensures WalkBetween(g, v + w, v[0], w[|w| - 1])
  {
    var c := v + w;
    forall i | 0 <= i < |c| - 1
      ensures Edge(g, c[i], c[i + 1])
    {
      if i < |v| - 1 {
        assert Edge(g, v[i], v[i + 1]);
      } else if i >= |v| {
        assert Edge(g, w[i - |v|], w[i - |v| + 1]);
      }
    }
  }

  lemma ReachesEdge(g: Graph, x: string, y: string, z: string)
    requires Reaches(g, x, y) && Edge(g, y, z)
    ensures Reaches(g, x, z)
  {
    var w :| WalkBetween(g, w, x, y);
    ConcatWalks(g, w, [z]);
    assert (w + [z])[|w|] == z;
  }

  lemma EdgeReaches(g: Graph, x: string, y: string, z: string)
    requires Edge(g, x, y) && Reaches(g, y, z)
    ensures Reaches(g, x, z)
  {
    var w :| WalkBetween(g, w, y, z);
    ConcatWalks(g, [x], w);
  }

  lemma {:induction false} ReachesTransitive(g: Graph, x: string, y: string, z: string)
    requires Reaches(g, x, y) && Reaches(g, y, z)
    ensures Reaches(g, x, z)
  {
    var w :| WalkBetween(g, w, y, z);
    ReachesAlong(g, x, w, |w| - 1);
  }

  lemma {:induction false} ReachesAlong(g: Graph, x: string, w: seq<string>, k: nat)
    requires IsWalk(g, w) && Reaches(g, x, w[0]) && k < |w|
    ensures Reaches(g, x, w[k])
  {
    if k > 0 {
      ReachesAlong(g, x, w, k - 1);
      assert Edge(g, w[k - 1], w[k - 1 + 1]);
      ReachesEdge(g, x, w[k - 1], w[k]);
    }
  }

  lemma SubWalk(g: Graph, w: seq<string>, i: nat, j: nat)
    requires IsWalk(g, w) && i < j <= |w|
    ensures IsWalk(g, w[i..j])
  {
    var c := w[i..j];
    forall k | 0 <= k < |c| - 1
      ensures Edge(g, c[k], c[k + 1])
    {
      assert Edge(g, w[i + k], w[i + k + 1]);
    }
  }

  /** Following an edge of an acyclic graph leaves strictly fewer elements to reach. */
  lemma RankDecreases(g: Graph, x: string, y: string)
    requires Edge(g, x, y) && AcyclicFrom(g, x)
    ensures AcyclicFrom(g, y)
    ensures |ReachSet(g, y)| < |ReachSet(g, x)|
  {
    ReachesSelf(g, x);
    forall z | Reaches(g, y, z)
      ensures Reaches(g, x, z)
    {
      EdgeReaches(g, x, y, z);
    }
    assert x in ReachSet(g, x) && x !in ReachSet(g, y);
    SubsetSize(ReachSet(g, y), ReachSet(g, x) - {x});
  }

  lemma {:induction false} SubsetSize<T>(a: set<T>, b: set<T>)
    requires a <= b
    ensures |a| <= |b|
  {
    if a != {} {
      var x :| x in a;
      SubsetSize(a - {x}, b - {x});
    }
  }

  /** Loop erasure: every walk contains a simple walk with the same ends. */
  lemma {:induction false} EraseLoops(g: Graph, w: seq<string>) returns (p: seq<string>)
    requires IsWalk(g, w)
    ensures WalkBetween(g, p, w[0], w[|w| - 1]) && Simple(p)
    ensures Elems(p) <= Elems(w)
    decreases |w|
  {
    if Simple(w) {
      return w;
    }
    var i, j :| 0 <= i < j < |w| && w[i] == w[j];
    var short := w[j..];
    SubWalk(g, w, j, |w|);
    if i > 0 {
      SubWalk(g, w, 0, i);
      assert Edge(g, w[i - 1], w[i - 1 + 1]);
      ConcatWalks(g, w[0..i], w[j..]);
      short := w[0..i] + w[j..];
    }
    assert Elems(short) <= Elems(w);
    p := EraseLoops(g, short);
  }

  /** Acyclicity of the whole graph gives it from every element. */
  lemma AcyclicEverywhere(g: Graph, x: string)
    requires Acyclic(g)
    ensures AcyclicFrom(g, x)
  {
  }

  function Reversed(w: seq<string>): (r: seq<string>)
    ensures |r| == |w|
    ensures forall i | 0 <= i < |w| :: r[i] == w[|w| - 1 - i]
    ensures forall x :: x in w ==> x in r
  {
    if w == [] then [] else Reversed(w[1..]) + [w[0]]
  }

  /** A walk read backwards is a walk of the reversed graph. */
  lemma ReverseWalk(g: Graph, h: Graph, w: seq<string>)
    requires g.Keys == h.Keys && IsWalk(g, w) && forall x, y | Edge(g, x, y) :: Edge(h, y, x)
    ensures IsWalk(h, Reversed(w))
  {
    var r := Reversed(w);
    forall i | 0 <= i < |r| - 1
      ensures Edge(h, r[i], r[i + 1])
    {
      var j := |w| - 2 - i;
      assert Edge(g, w[j], w[j + 1]);
    }
  }

  lemma ReverseReaches(g: Graph, h: Graph, x: string, y: string)
    requires g.Keys == h.Keys && (forall u, v | Edge(g, u, v) :: Edge(h, v, u)) && Reaches(g, x, y)
    ensures Reaches(h, y, x)
  {
    var w :| WalkBetween(g, w, x, y);
    ReverseWalk(g, h, w);
    var r := Reversed(w);
    assert r[0] == y && r[|r| - 1] == x;
    assert WalkBetween(h, r, y, x);
  }

  lemma ReverseAcyclic(g: Graph, h: Graph)
    requires g.Keys == h.Keys && Acyclic(g) && forall x, y :: Edge(g, x, y) <==> Edge(h, y, x)
    ensures Acyclic(h)
  {
    hide Reaches;
    forall y, z | Edge(h, y, z)
      ensures !Reaches(h, z, y)
    {
      if Reaches(h, z, y) {
        ReverseReaches(h, g, z, y);
      }
    }
  }

  /** A walk of an acyclic graph is no longer than its first element reaches. */
  lemma {:induction false} WalkIsShort(g: Graph, w: seq<string>)
    requires IsWalk(g, w) && AcyclicFrom(g, w[0])
    ensures |w| <= |ReachSet(g, w[0])|
    decreases |w|
  {
    hide AcyclicFrom, Reaches;
    ReachesSelf(g, w[0]);
    assert w[0] in ReachSet(g, w[0]);
    if |w| > 1 {
      hide ReachSet;
      assert Edge(g, w[0], w[0 + 1]);
      RankDecreases(g, w[0], w[1]);
      SubWalk(g, w, 1, |w|);
      WalkIsShort(g, w[1..]);
    }
  }

  /** Elements that can be numbered so that the numbers fall along every edge lie on no cycle. */
  lemma NumberedIsAcyclic(g: Graph, number: map<string, int>)
    requires g.Keys <= number.Keys && forall x, y | Edge(g, x, y) :: number[x] > number[y]
    ensures Acyclic(g)
  {
    forall y, z | Edge(g, y, z)
      ensures !Reaches(g, z, y)
    {
      if w :| WalkBetween(g, w, z, y) {
        NumbersFall(g, number, w, |w| - 1);
      }
    }
  }

  lemma {:induction false} NumbersFall(g: Graph, number: map<string, int>, w: seq<string>, k: nat)
    requires IsWalk(g, w) && k < |w| && g.Keys <= number.Keys && forall x, y | Edge(g, x, y) :: number[x] > number[y]
    ensures number[w[k]] <= number[w[0]]
  {
    if k > 0 {
      NumbersFall(g, number, w, k - 1);
      assert Edge(g, w[k - 1], w[k - 1 + 1]);
    }
  }
}
