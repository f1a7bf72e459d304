/** Collecting, for a joining gateway, the output variables set between it and the
    gateway that opened it (client/parser/parser.go). */
module Transforms {
  import opened Graph
  import opened Model

  /** The process graph cut at the join: nothing is followed beyond it. */
  function CutGraph(eles: Index, join: string): (g: Graph)
    ensures g.Keys == eles.Keys
  {
    map x | x in eles :: if x == join then [] else eles[x].Targets()
  }

  function FirstIndex(ts: seq<string>, t: string): (n: nat)
    requires t in ts
    ensures n < |ts| && ts[n] == t && t !in ts[..n]
  {
    if ts[0] == t then 0 else 1 + FirstIndex(ts[1..], t)
  }

  /** The flows of an element that the walk follows: none after the first one into the join. */
  function Followed(ts: seq<string>, join: string): (fs: seq<string>) {
    if join in ts then ts[..FirstIndex(ts, join) + 1] else ts
  }

  function FollowGraph(eles: Index, join: string): (g: Graph)
    ensures g.Keys == eles.Keys
  {
    map x | x in eles :: if x == join then [] else Followed(eles[x].Targets(), join)
  }

  /** What the walk needs so as not to run for ever: the flows it follows lead to known elements, and not in circles. */
  ghost predicate Followable(eles: Index, x: string, join: string) {
    var g := FollowGraph(eles, join);
    && IdsMatch(eles)
    && x in eles && join in eles && x != join
    && AcyclicFrom(g, x)
    && forall y, t | y in eles && Reaches(g, x, y) && t in g[y] :: t in eles
  }

  /** What it needs so as not to follow a nil pointer: what it comes by short of the join has outbound flows. */
  ghost predicate HasOutbound(eles: Index, x: string, join: string) {
    forall y | y in eles && y != join && Reaches(FollowGraph(eles, join), x, y) :: eles[y].outbound.Some?
  }

  ghost predicate Walkable(eles: Index, x: string, join: string) {
    Followable(eles, x, join) && HasOutbound(eles, x, join)
  }

  ghost function Rank(eles: Index, x: string, join: string): nat {
    |ReachSet(FollowGraph(eles, join), x)|
  }

  /** The walk of x gets to its i-th flow. */
  predicate GetsTo(eles: Index, x: string, i: nat, join: string)
    requires x in eles && i <= |eles[x].Targets()|
  {
    forall j | 0 <= j < i :: eles[x].Targets()[j] != join
  }

  lemma FollowedFlow(eles: Index, x: string, i: nat, join: string)
    requires x in eles && x != join && i < |eles[x].Targets()| && GetsTo(eles, x, i, join)
    ensures eles[x].Targets()[i] in FollowGraph(eles, join)[x]
  {
    var ts := eles[x].Targets();
    if join in ts {
      assert Followed(ts, join)[i] == ts[i];
    }
  }

  lemma FollowStep(eles: Index, x: string, i: nat, join: string)
    requires x in eles && Followable(eles, x, join) && i < |eles[x].Targets()| && GetsTo(eles, x, i, join)
    ensures var t := eles[x].Targets()[i];
            && t in eles && eles[t].id == t && Edge(FollowGraph(eles, join), x, t)
            && (t != join ==> Followable(eles, t, join))
            && Rank(eles, t, join) < Rank(eles, x, join)
  {
    FollowedFlow(eles, x, i, join);
    hide FollowGraph;
    var g, t := FollowGraph(eles, join), eles[x].Targets()[i];
    ReachesSelf(g, x);
    RankDecreases(g, x, t);
    forall y | Reaches(g, t, y)
      ensures Reaches(g, x, y)
    {
      EdgeReaches(g, x, t, y);
    }
  }

  lemma FollowOn(eles: Index, x: string, i: nat, join: string)
    requires x in eles && Followable(eles, x, join) && i < |eles[x].Targets()| && GetsTo(eles, x, i, join)
    ensures eles[x].Targets()[i] in eles && Rank(eles, eles[x].Targets()[i], join) < Rank(eles, x, join)
    ensures eles[x].Targets()[i] != join ==>
              Followable(eles, eles[x].Targets()[i], join) && GetsTo(eles, x, i + 1, join)
  {
    FollowStep(eles, x, i, join);
    hide Followable, Rank;
  }

  /** What the walk makes of `acc`, going through the targets of x from the i-th on. */
  function WalkFrom(eles: Index, x: string, i: nat, join: string, acc: map<string, string>): map<string, string>
    requires x in eles && Followable(eles, x, join) && i <= |eles[x].Targets()| && GetsTo(eles, x, i, join)
    decreases Rank(eles, x, join), |eles[x].Targets()| - i
  {
    var ts := eles[x].Targets();
    if i == |ts| then acc
    else
      FollowOn(eles, x, i, join);
      var acc1 := acc + eles[ts[i]].outputTransform;
      if ts[i] == join then acc1
      else
        WalkFrom(eles, x, i + 1, join, WalkFrom(eles, ts[i], 0, join, acc1))
  }

  /** The walk from x comes to an end if and only if it meets no nil pointer at x and behind none of its flows. */
  lemma HasOutboundIff(eles: Index, x: string, join: string)
    requires x in eles && Followable(eles, x, join)
    ensures x != join
    ensures HasOutbound(eles, x, join) <==>
            && eles[x].outbound.Some?
            && forall t | t in FollowGraph(eles, join)[x] && t != join :: t in eles && HasOutbound(eles, t, join)
  {
    hide FollowGraph;
    var g := FollowGraph(eles, join);
    ReachesSelf(g, x);
    if HasOutbound(eles, x, join) {
      forall t | t in g[x] && t != join
        ensures t in eles && HasOutbound(eles, t, join)
      {
        OutboundBeyond(eles, x, t, join);
      }
    }
    if eles[x].outbound.Some? && forall t | t in g[x] && t != join :: t in eles && HasOutbound(eles, t, join) {
      forall y | y in eles && y != join && Reaches(g, x, y)
        ensures eles[y].outbound.Some?
      {
        OutboundThere(eles, x, y, join);
      }
    }
  }

  lemma OutboundBeyond(eles: Index, x: string, t: string, join: string)
    requires x in eles && Followable(eles, x, join) && HasOutbound(eles, x, join) && t in FollowGraph(eles, join)[x]
    ensures t in eles && HasOutbound(eles, t, join)
  {
    hide FollowGraph, AcyclicFrom;
    var g := FollowGraph(eles, join);
    ReachesSelf(g, x);
    hide Reaches;
    assert Edge(g, x, t);
    forall y | Reaches(g, t, y)
      ensures Reaches(g, x, y)
    {
      EdgeReaches(g, x, t, y);
    }
  }

  lemma JoinIsLast(eles: Index, join: string, w: seq<string>, n: nat)
    requires IsWalk(FollowGraph(eles, join), w) && n < |w| && w[n] == join
    ensures n == |w| - 1
  {
    assert n < |w| - 1 ==> Edge(FollowGraph(eles, join), w[n], w[n + 1]);
  }

  lemma OutboundThere(eles: Index, x: string, y: string, join: string)
    requires x in eles && eles[x].outbound.Some? && y in eles && y != join && Reaches(FollowGraph(eles, join), x, y)
    requires forall t | t in FollowGraph(eles, join)[x] && t != join :: t in eles && HasOutbound(eles, t, join)
    ensures eles[y].outbound.Some?
  {
    hide FollowGraph;
    var g := FollowGraph(eles, join);
    var w :| WalkBetween(g, w, x, y);
    if |w| > 1 {
      assert Edge(g, w[0], w[0 + 1]);
      if w[1] == join {
        JoinIsLast(eles, join, w, 1);
      } else {
        SubWalk(g, w, 1, |w|);
        assert WalkBetween(g, w[1..], w[1], y);
      }
    }
  }

  /** The walk itself. It fails on a nil pointer if and only if it comes by an element without outbound flows short of
      the join. */
  method FindGatewayBranchOutputTransforms(outboundTransform: map<string, string>, el: string, join: string,
                                           eles: Index)
      returns (ok: bool, out: map<string, string>)
    requires el in eles && Followable(eles, el, join)
    ensures ok <==> HasOutbound(eles, el, join)
    ensures ok ==> out == WalkFrom(eles, el, 0, join, outboundTransform)
    decreases Rank(eles, el, join)
  {
    hide Followable, HasOutbound, FollowGraph, Rank, Reaches, TargetIds;
    out := outboundTransform;
    HasOutboundIff(eles, el, join);
    if eles[el].outbound.None? {
      return false, out;
    }
    var targets := eles[el].outbound.value;
    var i := 0;
    while i < |targets|
      invariant 0 <= i <= |targets| && GetsTo(eles, el, i, join)
      invariant WalkFrom(eles, el, i, join, out) == WalkFrom(eles, el, 0, join, outboundTransform)
      invariant forall j | 0 <= j < i :: eles[el].Targets()[j] in eles && HasOutbound(eles, eles[el].Targets()[j], join)
    {
      FollowStep(eles, el, i, join);
      var targetEle := eles[targets[i].target];
      out := out + targetEle.outputTransform;
      if targetEle.id == join {
        FollowedUpTo(eles, el, i, join);
        return true, out;
      }
      ok, out := FindGatewayBranchOutputTransforms(out, targetEle.id, join, eles);
      if !ok {
        return;
      }
      i := i + 1;
    }
    FollowedAll(eles, el, join);
    ok := true;
  }

  lemma FollowedUpTo(eles: Index, x: string, i: nat, join: string)
    requires x in eles && x != join && i < |eles[x].Targets()| && GetsTo(eles, x, i, join)
    requires eles[x].Targets()[i] == join
    ensures FollowGraph(eles, join)[x] == eles[x].Targets()[..i + 1]
  {
  }

  lemma FollowedAll(eles: Index, x: string, join: string)
    requires x in eles && x != join && GetsTo(eles, x, |eles[x].Targets()|, join)
    ensures FollowGraph(eles, join)[x] == eles[x].Targets()
  {
  }

  // ---- What the walk collects, in terms of paths ----

  /** The walk from x comes by e. */
  ghost predicate Visits(eles: Index, x: string, join: string, e: string) {
    exists y :: Edge(FollowGraph(eles, join), x, y) && Reaches(FollowGraph(eles, join), y, e)
  }

  lemma VisitsBeyond(eles: Index, x: string, y: string, join: string, e: string)
    requires Edge(FollowGraph(eles, join), x, y)
    ensures y in eles && (y == e || Visits(eles, y, join, e) ==> Visits(eles, x, join, e))
  {
    var g := FollowGraph(eles, join);
    if y == e {
      ReachesSelf(g, y);
    } else if z :| Edge(g, y, z) && Reaches(g, z, e) {
      EdgeReaches(g, y, z, e);
    }
  }

  lemma FollowedEdge(eles: Index, x: string, i: nat, join: string)
    requires x in eles && x != join && i < |eles[x].Targets()| && eles[x].Targets()[i] in eles
    requires GetsTo(eles, x, i, join)
    ensures Edge(FollowGraph(eles, join), x, eles[x].Targets()[i])
  {
    var ts := eles[x].Targets();
    if join in ts {
      assert Followed(ts, join)[i] == ts[i];
    }
  }

  lemma FollowedIndex(eles: Index, x: string, t: string, join: string) returns (n: nat)
    requires Edge(FollowGraph(eles, join), x, t)
    ensures x in eles && x != join && n < |eles[x].Targets()| && eles[x].Targets()[n] == t
    ensures GetsTo(eles, x, n, join)
  {
    var ts := eles[x].Targets();
    var fs := Followed(ts, join);
    n :| 0 <= n < |fs| && fs[n] == t;
    if join in ts {
      assert forall j | 0 <= j < |fs| - 1 :: fs[j] in ts[..FirstIndex(ts, join)];
    }
  }

  lemma {:induction false} WalkKeeps(eles: Index, x: string, i: nat, join: string, acc: map<string, string>)
    requires x in eles && Followable(eles, x, join) && i <= |eles[x].Targets()| && GetsTo(eles, x, i, join)
    ensures acc.Keys <= WalkFrom(eles, x, i, join, acc).Keys
    decreases Rank(eles, x, join), |eles[x].Targets()| - i
  {
    hide Followable, FollowGraph, Rank, Reaches, TargetIds;
    var ts := eles[x].Targets();
    if i < |ts| {
      FollowStep(eles, x, i, join);
      if ts[i] != join {
        var acc1 := acc + eles[ts[i]].outputTransform;
        WalkKeeps(eles, ts[i], 0, join, acc1);
        WalkKeeps(eles, x, i + 1, join, WalkFrom(eles, ts[i], 0, join, acc1));
      }
    }
  }

  /** Every collected variable was there before, or is an output of an element the walk comes by; so is its value. */
  lemma {:induction false} WalkSound(eles: Index, x: string, i: nat, join: string, acc: map<string, string>, k: string)
      returns (e: string)
    requires x in eles && x != join && Followable(eles, x, join) && i <= |eles[x].Targets()|
    requires GetsTo(eles, x, i, join)
    requires k in WalkFrom(eles, x, i, join, acc)
    ensures var value := WalkFrom(eles, x, i, join, acc)[k];
            || (k in acc && acc[k] == value)
            || (Visits(eles, x, join, e) && e in eles && k in eles[e].outputTransform
              && eles[e].outputTransform[k] == value)
    decreases Rank(eles, x, join), |eles[x].Targets()| - i
  {
    hide Followable, FollowGraph, Rank, Visits, TargetIds;
    var ts := eles[x].Targets();
    e := x;
    if i < |ts| {
      FollowStep(eles, x, i, join);
      FollowedEdge(eles, x, i, join);
      VisitsBeyond(eles, x, ts[i], join, ts[i]);
      var acc1 := acc + eles[ts[i]].outputTransform;
      if ts[i] == join {
        e := ts[i];
      } else {
        var inner := WalkFrom(eles, ts[i], 0, join, acc1);
        e := WalkSound(eles, x, i + 1, join, inner, k);
        if k in inner && inner[k] == WalkFrom(eles, x, i, join, acc)[k] {
          e := WalkSound(eles, ts[i], 0, join, acc1, k);
          VisitsBeyond(eles, x, ts[i], join, e);
          if k in acc1 && acc1[k] == inner[k] {
            e := ts[i];
          }
        }
      }
    }
  }

  /** Whatever is collected up to target i, at it and beyond it stays collected. */
  lemma WalkTakes(eles: Index, x: string, i: nat, join: string, acc: map<string, string>)
    requires x in eles && Followable(eles, x, join) && i < |eles[x].Targets()| && eles[x].Targets()[i] in eles
    requires GetsTo(eles, x, i, join)
    ensures (acc + eles[eles[x].Targets()[i]].outputTransform).Keys <= WalkFrom(eles, x, i, join, acc).Keys
    ensures eles[x].Targets()[i] != join ==>
              && Followable(eles, eles[x].Targets()[i], join)
              && WalkFrom(eles, eles[x].Targets()[i], 0, join, acc + eles[eles[x].Targets()[i]].outputTransform).Keys
                 <= WalkFrom(eles, x, i, join, acc).Keys
  {
    hide Followable, FollowGraph, Rank, Reaches, TargetIds;
    FollowStep(eles, x, i, join);
    var t := eles[x].Targets()[i];
    var acc1 := acc + eles[t].outputTransform;
    if t != join {
      WalkKeeps(eles, t, 0, join, acc1);
      WalkKeeps(eles, x, i + 1, join, WalkFrom(eles, t, 0, join, acc1));
    }
  }

  /** The walk gets as far as the n-th target when none before it is the join. */
  lemma {:induction false} WalkGetsTo(eles: Index, x: string, i: nat, n: nat, join: string, acc: map<string, string>)
      returns (before: map<string, string>)
    requires x in eles && Followable(eles, x, join) && i <= n < |eles[x].Targets()| && GetsTo(eles, x, n, join)
    ensures WalkFrom(eles, x, i, join, acc) == WalkFrom(eles, x, n, join, before)
    decreases n - i
  {
    hide Followable, FollowGraph, Rank, Reaches, TargetIds;
    if i < n {
      FollowStep(eles, x, i, join);
      var t := eles[x].Targets()[i];
      before := WalkGetsTo(eles, x, i + 1, n, join, WalkFrom(eles, t, 0, join, acc + eles[t].outputTransform));
    } else {
      before := acc;
    }
  }

  /** Every output of an element the walk comes by is collected. */
  lemma {:induction false} WalkComplete(eles: Index, x: string, join: string, acc: map<string, string>,
                                        p: seq<string>, k: string)
    requires x in eles && Followable(eles, x, join)
    requires |p| >= 2 && IsWalk(FollowGraph(eles, join), p) && p[0] == x
    requires k in eles[p[|p| - 1]].outputTransform
    ensures k in WalkFrom(eles, x, 0, join, acc)
    decreases |p|
  {
    hide Followable, FollowGraph, Rank, TargetIds, WalkFrom;
    var g := FollowGraph(eles, join);
    assert Edge(g, p[0], p[0 + 1]);
    var n := FollowedIndex(eles, x, p[1], join);
    var before := WalkGetsTo(eles, x, 0, n, join, acc);
    WalkTakes(eles, x, n, join, before);
    if |p| > 2 {
      assert Edge(g, p[1], p[1 + 1]);
      var _ := FollowedIndex(eles, p[1], p[2], join);
      SubWalk(g, p, 1, |p|);
      WalkComplete(eles, p[1], join, before + eles[p[1]].outputTransform, p[1..], k);
    }
  }

  ghost predicate OutputVisited(eles: Index, split: string, join: string, k: string) {
    exists e :: Visits(eles, split, join, e) && e in eles && k in eles[e].outputTransform
  }

  ghost predicate ValueVisited(eles: Index, split: string, join: string, k: string, value: string) {
    exists e :: && Visits(eles, split, join, e) && e in eles
                && k in eles[e].outputTransform && eles[e].outputTransform[k] == value
  }

  /** For every walk that ends: the variables collected are exactly the outputs of the elements it comes by, and each
      is given the value that one of these elements gives it. */
  lemma WalkCollectsExactlyVisited(eles: Index, split: string, join: string, k: string)
    requires split in eles && split != join && Followable(eles, split, join)
    ensures k in WalkFrom(eles, split, 0, join, map[]) <==> OutputVisited(eles, split, join, k)
    ensures k in WalkFrom(eles, split, 0, join, map[]) ==>
              ValueVisited(eles, split, join, k, WalkFrom(eles, split, 0, join, map[])[k])
  {
    hide Followable, Rank, WalkFrom, FollowGraph, Visits;
    if k in WalkFrom(eles, split, 0, join, map[]) {
      var e := WalkSound(eles, split, 0, join, map[], k);
    }
    if e :| Visits(eles, split, join, e) && e in eles && k in eles[e].outputTransform {
      VisitedIsCollected(eles, split, join, e, k);
    }
  }

  lemma VisitedIsCollected(eles: Index, split: string, join: string, e: string, k: string)
    requires split in eles && Followable(eles, split, join)
    requires Visits(eles, split, join, e) && e in eles && k in eles[e].outputTransform
    ensures k in WalkFrom(eles, split, 0, join, map[])
  {
    hide Followable, Rank, WalkFrom, FollowGraph;
    var g := FollowGraph(eles, join);
    var y :| Edge(g, split, y) && Reaches(g, y, e);
    var p :| WalkBetween(g, p, y, e);
    ConcatWalks(g, [split], p);
    WalkComplete(eles, split, join, map[], [split] + p, k);
  }

  // ---- Which value wins ----

  /** The elements the walk comes by, in order and as often as it does. */
  function VisitOrder(eles: Index, x: string, i: nat, join: string): (order: seq<string>)
    requires x in eles && Followable(eles, x, join) && i <= |eles[x].Targets()| && GetsTo(eles, x, i, join)
    decreases Rank(eles, x, join), |eles[x].Targets()| - i
  {
    var ts := eles[x].Targets();
    if i == |ts| then []
    else
      FollowOn(eles, x, i, join);
      if ts[i] == join then [ts[i]]
      else [ts[i]] + VisitOrder(eles, ts[i], 0, join) + VisitOrder(eles, x, i + 1, join)
  }

  /** Outputs merged one element after another. */
  function Merge(eles: Index, acc: map<string, string>, order: seq<string>): map<string, string> {
    if order == [] then acc
    else
      var before, e := Merge(eles, acc, order[..|order| - 1]), order[|order| - 1];
      if e in eles then before + eles[e].outputTransform else before
  }

  lemma {:induction false} MergeAppend(eles: Index, acc: map<string, string>, a: seq<string>, b: seq<string>)
    ensures Merge(eles, acc, a + b) == Merge(eles, Merge(eles, acc, a), b)
  {
    if b == [] {
      assert a + b == a;
    } else {
      assert (a + b)[..|a + b| - 1] == a + b[..|b| - 1];
      MergeAppend(eles, acc, a, b[..|b| - 1]);
    }
  }

  lemma MergeOne(eles: Index, acc: map<string, string>, e: string)
    requires e in eles
    ensures Merge(eles, acc, [e]) == acc + eles[e].outputTransform
  {
    assert [e][..0] == [];
  }

  lemma {:induction false} WalkIsMerge(eles: Index, x: string, i: nat, join: string, acc: map<string, string>)
    requires x in eles && Followable(eles, x, join) && i <= |eles[x].Targets()| && GetsTo(eles, x, i, join)
    ensures WalkFrom(eles, x, i, join, acc) == Merge(eles, acc, VisitOrder(eles, x, i, join))
    decreases Rank(eles, x, join), |eles[x].Targets()| - i
  {
    hide Followable, FollowGraph, Rank, TargetIds, Merge;
    var ts := eles[x].Targets();
    if i == |ts| {
      MergeNone(eles, acc);
    } else {
      FollowStep(eles, x, i, join);
      MergeOne(eles, acc, ts[i]);
      if ts[i] != join {
        var acc1 := acc + eles[ts[i]].outputTransform;
        WalkIsMerge(eles, ts[i], 0, join, acc1);
        var inner := WalkFrom(eles, ts[i], 0, join, acc1);
        WalkIsMerge(eles, x, i + 1, join, inner);
        MergeAppend(eles, acc, [ts[i]], VisitOrder(eles, ts[i], 0, join));
        MergeAppend(eles, acc, [ts[i]] + VisitOrder(eles, ts[i], 0, join), VisitOrder(eles, x, i + 1, join));
      }
    }
  }

  lemma MergeNone(eles: Index, acc: map<string, string>)
    ensures Merge(eles, acc, []) == acc
  {
  }

  predicate Sets(eles: Index, e: string, k: string) {
    e in eles && k in eles[e].outputTransform
  }

  lemma {:induction false} MergeLast(eles: Index, order: seq<string>, k: string)
    ensures k in Merge(eles, map[], order) <==> exists n :: 0 <= n < |order| && Sets(eles, order[n], k)
    ensures forall n | 0 <= n < |order| && Sets(eles, order[n], k)
            && (forall m | n < m < |order| :: !Sets(eles, order[m], k)) ::
              k in Merge(eles, map[], order) && Merge(eles, map[], order)[k] == eles[order[n]].outputTransform[k]
  {
    if order != [] {
      var l := |order| - 1;
      MergeLast(eles, order[..l], k);
      assert forall n | 0 <= n < l :: order[..l][n] == order[n];
    }
  }

  /** A variable that several elements set has the value of the last one the walk comes by. */
  lemma LastSetterWins(eles: Index, split: string, join: string, k: string, n: nat)
    requires split in eles && Followable(eles, split, join) && n < |VisitOrder(eles, split, 0, join)|
    requires var order := VisitOrder(eles, split, 0, join);
             Sets(eles, order[n], k) && forall m | n < m < |order| :: !Sets(eles, order[m], k)
    ensures var order, out := VisitOrder(eles, split, 0, join), WalkFrom(eles, split, 0, join, map[]);
            k in out && out[k] == eles[order[n]].outputTransform[k]
  {
    hide Followable, VisitOrder, WalkFrom, Merge;
    WalkIsMerge(eles, split, 0, join, map[]);
    MergeLast(eles, VisitOrder(eles, split, 0, join), k);
  }

  /** What each variable is given is what the last of the elements that set it gives it. */
  ghost predicate GivesLast(eles: Index, split: string, join: string, out: map<string, string>) {
    && split in eles && Followable(eles, split, join)
    && var order := VisitOrder(eles, split, 0, join);
       forall n, k | 0 <= n < |order| && Sets(eles, order[n], k)
         && (forall m | n < m < |order| :: !Sets(eles, order[m], k)) ::
         k in out && out[k] == eles[order[n]].outputTransform[k]
  }

  lemma WalkGivesLast(eles: Index, split: string, join: string)
    requires split in eles && Followable(eles, split, join)
    ensures GivesLast(eles, split, join, WalkFrom(eles, split, 0, join, map[]))
  {
    hide Followable, VisitOrder, WalkFrom;
    var order := VisitOrder(eles, split, 0, join);
    forall n, k | 0 <= n < |order| && Sets(eles, order[n], k)
      && (forall m | n < m < |order| :: !Sets(eles, order[m], k))
      ensures k in WalkFrom(eles, split, 0, join, map[])
      ensures WalkFrom(eles, split, 0, join, map[])[k] == eles[order[n]].outputTransform[k]
    {
      LastSetterWins(eles, split, join, k, n);
    }
  }

  /** The walk goes deep first: right after an element short of the join it comes to the first target of it. */
  lemma {:induction false} DepthFirst(eles: Index, x: string, i: nat, join: string, n: nat)
    requires x in eles && Followable(eles, x, join) && i <= |eles[x].Targets()| && GetsTo(eles, x, i, join)
    requires n < |VisitOrder(eles, x, i, join)|
    ensures var order := VisitOrder(eles, x, i, join);
            && order[0] == eles[x].Targets()[i] && order[n] in eles
            && (order[n] == join || eles[order[n]].Targets() == []
                || (n + 1 < |order| && order[n + 1] == eles[order[n]].Targets()[0]))
    decreases Rank(eles, x, join), |eles[x].Targets()| - i
  {
    hide Followable, FollowGraph, Rank, TargetIds;
    var ts := eles[x].Targets();
    FollowStep(eles, x, i, join);
    if ts[i] != join {
      var deeper, wider := VisitOrder(eles, ts[i], 0, join), VisitOrder(eles, x, i + 1, join);
      assert VisitOrder(eles, x, i, join) == [ts[i]] + deeper + wider;
      if n == 0 {
        if deeper != [] {
          DepthFirst(eles, ts[i], 0, join, 0);
        }
      } else if n <= |deeper| {
        DepthFirst(eles, ts[i], 0, join, n - 1);
      } else {
        DepthFirst(eles, x, i + 1, join, n - 1 - |deeper|);
      }
    }
  }

  // ---- The elements between split and join ----

  /** The elements on the paths from the split to the join, without the split and with the join. */
  ghost predicate Between(eles: Index, split: string, join: string, e: string) {
    exists p, i :: WalkBetween(CutGraph(eles, join), p, split, join) && 1 <= i < |p| && p[i] == e
  }

  ghost predicate OutputBetween(eles: Index, split: string, join: string, k: string) {
    exists e :: Between(eles, split, join, e) && e in eles && k in eles[e].outputTransform
  }

  /** No flows that the walk follows from x stop short of the join. */
  ghost predicate NoDeadEnds(eles: Index, x: string, join: string) {
    forall y | Reaches(FollowGraph(eles, join), x, y) && y in eles && y != join :: eles[y].Targets() != []
  }

  /** Where an element has a flow straight into the join, no flow elsewhere follows it. */
  predicate JoinEdgesLast(eles: Index, join: string) {
    forall y, i, j | y in eles && y != join && 0 <= i < j < |eles[y].Targets()| && eles[y].Targets()[i] == join ::
      eles[y].Targets()[j] == join
  }

  lemma FurtherOn(eles: Index, x: string, t: string, join: string)
    requires x in eles && Followable(eles, x, join) && NoDeadEnds(eles, x, join)
    requires t in eles && t != join && Reaches(FollowGraph(eles, join), x, t)
    ensures Followable(eles, t, join) && NoDeadEnds(eles, t, join)
  {
    hide FollowGraph;
    var g := FollowGraph(eles, join);
    forall y | Reaches(g, t, y)
      ensures Reaches(g, x, y)
    {
      ReachesTransitive(g, x, t, y);
    }
    hide Reaches;
  }

  lemma BetweenFromEdge(eles: Index, x: string, y: string, e: string, join: string)
    requires Edge(CutGraph(eles, join), x, y) && Reaches(CutGraph(eles, join), y, e)
    requires Reaches(CutGraph(eles, join), e, join)
    ensures Between(eles, x, join, e)
  {
    hide CutGraph;
    var g := CutGraph(eles, join);
    var v :| WalkBetween(g, v, y, e);
    var w :| WalkBetween(g, w, e, join);
    ConcatWalks(g, [x], v);
    var p := [x] + v;
    if |w| > 1 {
      SubWalk(g, w, 1, |w|);
      assert Edge(g, w[0], w[0 + 1]);
      ConcatWalks(g, p, w[1..]);
      p := p + w[1..];
    }
    assert p[|v|] == e;
    assert WalkBetween(g, p, x, join);
  }

  lemma FollowedIsEdge(eles: Index, x: string, y: string, join: string)
    requires Edge(FollowGraph(eles, join), x, y)
    ensures Edge(CutGraph(eles, join), x, y)
  {
  }

  lemma {:induction false} FollowedReaches(eles: Index, p: seq<string>, join: string)
    requires IsWalk(FollowGraph(eles, join), p)
    ensures IsWalk(CutGraph(eles, join), p)
  {
    forall i | 0 <= i < |p| - 1
      ensures Edge(CutGraph(eles, join), p[i], p[i + 1])
    {
      assert Edge(FollowGraph(eles, join), p[i], p[i + 1]);
      FollowedIsEdge(eles, p[i], p[i + 1], join);
    }
  }

  /** Where no path dies out, the walk comes to the join: every element's first flow is followed. */
  lemma {:induction false} JoinIsVisited(eles: Index, x: string, join: string)
    requires x in eles && x != join && Followable(eles, x, join) && NoDeadEnds(eles, x, join)
    ensures Visits(eles, x, join, join)
    decreases Rank(eles, x, join)
  {
    var g := FollowGraph(eles, join);
    ReachesSelf(g, x);
    hide Followable, Rank, Reaches, TargetIds, Visits, FollowGraph;
    FollowStep(eles, x, 0, join);
    var t := eles[x].Targets()[0];
    if t != join {
      ReachesEdge(g, x, x, t);
      FurtherOn(eles, x, t, join);
      JoinIsVisited(eles, t, join);
    }
    VisitsBeyond(eles, x, t, join, join);
  }

  lemma VisitedReaches(eles: Index, x: string, join: string, e: string)
    requires Visits(eles, x, join, e)
    ensures exists y :: Edge(CutGraph(eles, join), x, y) && Reaches(CutGraph(eles, join), y, e)
    ensures Reaches(FollowGraph(eles, join), x, e) && Reaches(CutGraph(eles, join), x, e) && e in eles
  {
    hide FollowGraph, CutGraph;
    var f, g := FollowGraph(eles, join), CutGraph(eles, join);
    var y :| Edge(f, x, y) && Reaches(f, y, e);
    var p :| WalkBetween(f, p, y, e);
    FollowedIsEdge(eles, x, y, join);
    FollowedReaches(eles, p, join);
    assert WalkBetween(g, p, y, e);
    EdgeReaches(f, x, y, e);
    EdgeReaches(g, x, y, e);
  }

  /** Where no path dies out, the walk comes by nothing that is not between split and join. */
  lemma VisitedIsBetween(eles: Index, split: string, join: string, e: string)
    requires split in eles && split != join && Followable(eles, split, join) && NoDeadEnds(eles, split, join)
    requires Visits(eles, split, join, e)
    ensures Between(eles, split, join, e)
  {
    hide Followable, NoDeadEnds, Visits, CutGraph, FollowGraph, Between, Reaches;
    var g := CutGraph(eles, join);
    VisitedReaches(eles, split, join, e);
    var y :| Edge(g, split, y) && Reaches(g, y, e);
    if e == join {
      ReachesSelf(g, join);
    } else {
      FurtherOn(eles, split, e, join);
      JoinIsVisited(eles, e, join);
      VisitedReaches(eles, e, join, join);
    }
    BetweenFromEdge(eles, split, y, e, join);
  }

  /** When flows into the join come last, the walk comes by everything between split and join. */
  lemma BetweenIsVisited(eles: Index, split: string, join: string, e: string)
    requires JoinEdgesLast(eles, join) && Between(eles, split, join, e)
    ensures Visits(eles, split, join, e)
  {
    var f, g := FollowGraph(eles, join), CutGraph(eles, join);
    var p, i :| WalkBetween(g, p, split, join) && 1 <= i < |p| && p[i] == e;
    forall j | 0 <= j < |p| - 1
      ensures Edge(f, p[j], p[j + 1])
    {
      assert Edge(g, p[j], p[j + 1]);
      LastFlowsFollowed(eles, p[j], p[j + 1], join);
    }
    assert Edge(f, p[0], p[0 + 1]);
    assert IsWalk(f, p);
    SubWalk(f, p, 1, i + 1);
    assert WalkBetween(f, p[1..i + 1], p[1], e);
  }

  lemma LastFlowsFollowed(eles: Index, x: string, y: string, join: string)
    requires JoinEdgesLast(eles, join) && Edge(CutGraph(eles, join), x, y)
    ensures Edge(FollowGraph(eles, join), x, y)
  {
    var ts := eles[x].Targets();
    if join in ts {
      var n := FirstIndex(ts, join);
      var i :| 0 <= i < |ts| && ts[i] == y;
      assert Followed(ts, join)[if i <= n then i else n] == y;
    }
  }

  /** The keys collected are exactly the outputs of the elements between split and join. */
  lemma WalkCollectsExactlyBetween(eles: Index, split: string, join: string, k: string)
    requires split in eles && split != join && Followable(eles, split, join)
    requires NoDeadEnds(eles, split, join) && JoinEdgesLast(eles, join)
    ensures k in WalkFrom(eles, split, 0, join, map[]) <==> OutputBetween(eles, split, join, k)
  {
    hide OutputVisited, OutputBetween, Followable, JoinEdgesLast, NoDeadEnds, WalkFrom;
    WalkCollectsExactlyVisited(eles, split, join, k);
    VisitedIffBetween(eles, split, join, k);
  }

  lemma VisitedIffBetween(eles: Index, split: string, join: string, k: string)
    requires split in eles && split != join && Followable(eles, split, join)
    requires NoDeadEnds(eles, split, join) && JoinEdgesLast(eles, join)
    ensures OutputVisited(eles, split, join, k) <==> OutputBetween(eles, split, join, k)
  {
    hide Visits, Between, Followable, JoinEdgesLast, NoDeadEnds;
    if e :| Visits(eles, split, join, e) && e in eles && k in eles[e].outputTransform {
      VisitedIsBetween(eles, split, join, e);
    }
    if e :| Between(eles, split, join, e) && e in eles && k in eles[e].outputTransform {
      BetweenIsVisited(eles, split, join, e);
    }
  }

  // ---- When nothing is lost ----

  /** Two indexes that differ in the output transforms only. */
  predicate SameShape(a: Index, b: Index) {
    a.Keys == b.Keys && forall x | x in a :: b[x] == a[x].(outputTransform := b[x].outputTransform)
  }

  lemma SameShapeSameGraph(a: Index, b: Index, join: string)
    requires SameShape(a, b)
    ensures CutGraph(a, join) == CutGraph(b, join) && FollowGraph(a, join) == FollowGraph(b, join)
  {
    assert forall x | x in a :: a[x].Targets() == b[x].Targets();
  }

  lemma SameShapeSamePaths(a: Index, b: Index, x: string, join: string)
    requires SameShape(a, b)
    ensures Followable(a, x, join) ==> Followable(b, x, join)
    ensures HasOutbound(a, x, join) ==> HasOutbound(b, x, join)
    ensures NoDeadEnds(a, x, join) ==> NoDeadEnds(b, x, join)
    ensures JoinEdgesLast(a, join) ==> JoinEdgesLast(b, join)
    ensures forall e :: Between(a, x, join, e) <==> Between(b, x, join, e)
    ensures forall e :: Visits(a, x, join, e) <==> Visits(b, x, join, e)
  {
    hide Reaches, AcyclicFrom, CutGraph, FollowGraph;
    SameShapeSameGraph(a, b, join);
    assert forall y | y in a ::
            a[y].Targets() == b[y].Targets() && a[y].outbound == b[y].outbound && a[y].id == b[y].id;
  }

  ghost predicate CollectsBetween(r: Index, split: string, join: string)
    requires split in r && Followable(r, split, join)
  {
    forall k :: k in WalkFrom(r, split, 0, join, map[]) <==> OutputBetween(r, split, join, k)
  }

  /** An index whose only output is variable k, set by element e. */
  function OnlyOutput(eles: Index, e: string, k: string): (r: Index)
    ensures SameShape(eles, r)
  {
    map x | x in eles :: eles[x].(outputTransform := if x == e then map[k := k] else map[])
  }

  /** An element that only flows behind a flow into the join lead to loses whatever it outputs. */
  lemma SkippedLoses(eles: Index, split: string, join: string, e: string, k: string)
    requires split in eles && split != join && Followable(eles, split, join)
    requires Between(eles, split, join, e) && !Visits(eles, split, join, e)
    ensures var r := OnlyOutput(eles, e, k);
            Followable(r, split, join) && split in r && !CollectsBetween(r, split, join)
  {
    hide Followable, CutGraph, FollowGraph, WalkFrom, NoDeadEnds, JoinEdgesLast, Visits;
    var r := OnlyOutput(eles, e, k);
    SameShapeSamePaths(eles, r, split, join);
    WalkCollectsExactlyVisited(r, split, join, k);
    var p, i :| WalkBetween(CutGraph(eles, join), p, split, join) && 1 <= i < |p| && p[i] == e;
    assert e in r && k in r[e].outputTransform;
    assert OutputBetween(r, split, join, k) && k !in WalkFrom(r, split, 0, join, map[]);
  }

  /** Whatever the elements output, the walk collects the outputs between split and join, if and only if
      no element between them is skipped. */
  lemma CollectsBetweenIffNoneSkipped(eles: Index, split: string, join: string)
    requires split in eles && split != join && Followable(eles, split, join) && NoDeadEnds(eles, split, join)
    ensures (forall r | SameShape(eles, r) && Followable(r, split, join) :: CollectsBetween(r, split, join))
            <==> (forall e | Between(eles, split, join, e) :: Visits(eles, split, join, e))
  {
    hide Followable, NoDeadEnds, Between, Visits, WalkFrom, JoinEdgesLast;
    if forall r | SameShape(eles, r) && Followable(r, split, join) :: CollectsBetween(r, split, join) {
      forall e | Between(eles, split, join, e)
        ensures Visits(eles, split, join, e)
      {
        if !Visits(eles, split, join, e) {
          SkippedLoses(eles, split, join, e, "v");
        }
      }
    }
    if forall e | Between(eles, split, join, e) :: Visits(eles, split, join, e) {
      forall r | SameShape(eles, r) && Followable(r, split, join)
        ensures CollectsBetween(r, split, join)
      {
        forall k
          ensures k in WalkFrom(r, split, 0, join, map[]) <==> OutputBetween(r, split, join, k)
        {
          NoneSkippedCollects(eles, r, split, join, k);
        }
      }
    }
  }

  lemma NoneSkippedCollects(eles: Index, r: Index, split: string, join: string, k: string)
    requires split in eles && split in r && split != join && Followable(r, split, join) && NoDeadEnds(eles, split, join)
    requires SameShape(eles, r) && forall e | Between(eles, split, join, e) :: Visits(eles, split, join, e)
    ensures k in WalkFrom(r, split, 0, join, map[]) <==> OutputBetween(r, split, join, k)
  {
    hide Followable, NoDeadEnds, Between, Visits, WalkFrom, SameShape, JoinEdgesLast;
    SameShapeSamePaths(eles, r, split, join);
    WalkCollectsExactlyVisited(r, split, join, k);
    if e :| Visits(r, split, join, e) && e in r && k in r[e].outputTransform {
      VisitedIsBetween(r, split, join, e);
    }
  }

  /** A task that may be left out: the split leads straight to the join, and only then to the task. */
  const OPTIONAL: Index :=
    map["s" := Plain("s", Gateway, "", ["j", "a"]).(gateway := Some(GatewaySpec(Exclusive, Divergent, "j", []))),
        "a" := Plain("a", Other("task"), "", ["j"]).(outputTransform := map["v" := "v"]),
        "j" := Plain("j", Gateway, "", ["e"]).(gateway := Some(GatewaySpec(Exclusive, Convergent, "s", []))),
        "e" := Plain("e", EndEvent, "", [])]

  predicate Optional(eles: Index) {
    && eles.Keys == {"s", "a", "j", "e"} && IdsMatch(eles)
    && eles["s"].Targets() == ["j", "a"] && eles["a"].Targets() == ["j"] && eles["e"].Targets() == []
    && eles["j"].outputTransform == map[] && eles["a"].outputTransform == map["v" := "v"]
  }

  lemma OptionalShape()
    ensures Optional(OPTIONAL)
  {
    hide TargetIds;
  }

  lemma FollowedOnes()
    ensures Followed(["j"], "j") == ["j"] && Followed(["j", "a"], "j") == ["j"] && Followed([], "j") == []
    ensures Followed(["a", "b", "c"], "j") == ["a", "b", "c"]
  {
    assert FirstIndex(["j", "a"], "j") == 0 && FirstIndex(["j"], "j") == 0;
    assert ["j", "a"][..1] == ["j"] && ["j"][..1] == ["j"];
  }

  lemma OptionalGraph(eles: Index)
    requires Optional(eles)
    ensures FollowGraph(eles, "j") == map["s" := ["j"], "a" := ["j"], "j" := [], "e" := []]
  {
    hide TargetIds, Followed;
    FollowedOnes();
  }

  lemma OptionalFollowable(eles: Index)
    requires Optional(eles)
    ensures Followable(eles, "s", "j")
  {
    hide TargetIds, FollowGraph, AcyclicFrom, Reaches;
    OptionalGraph(eles);
    StarAcyclic(FollowGraph(eles, "j"));
  }

  lemma StarAcyclic(g: Graph)
    requires g == map["s" := ["j"], "a" := ["j"], "j" := [], "e" := []]
    ensures AcyclicFrom(g, "s")
  {
    NumberedIsAcyclic(g, map["s" := 1, "a" := 1, "j" := 0, "e" := 0]);
    hide Reaches;
  }

  lemma OptionalLoses(eles: Index)
    requires Optional(eles)
    ensures Followable(eles, "s", "j") && Between(eles, "s", "j", "a") && !CollectsBetween(eles, "s", "j")
  {
    OptionalFollowable(eles);
    hide Followable, TargetIds, Reaches;
    var g, p := CutGraph(eles, "j"), ["s", "a", "j"];
    assert g["s"] == ["j", "a"] && g["a"] == ["j"] && Edge(g, "s", "a") && Edge(g, "a", "j");
    assert WalkBetween(g, p, "s", "j") && p[1] == "a";
    assert WalkFrom(eles, "s", 0, "j", map[]) == map[];
    assert OutputBetween(eles, "s", "j", "v");
  }

  /** Its outputs are lost, though it lies between split and join. */
  lemma OptionalTaskIsLost()
    ensures Followable(OPTIONAL, "s", "j") && Between(OPTIONAL, "s", "j", "a") && !CollectsBetween(OPTIONAL, "s", "j")
  {
    hide Plain, Optional, Followable, Between, CollectsBetween;
    OptionalShape();
    OptionalLoses(OPTIONAL);
  }

  /** Three branches, of which one ends the process: what the tagger makes a pair of d and j all the same. */
  const ENDING: Index :=
    map["d" := Plain("d", Gateway, "", ["a", "b", "c"]).(gateway := Some(GatewaySpec(Exclusive, Divergent, "j", []))),
        "a" := Plain("a", Other("task"), "", ["j"]),
        "b" := Plain("b", Other("task"), "", ["j"]),
        "c" := Plain("c", EndEvent, "", []),
        "j" := Plain("j", Gateway, "", ["e"]).(gateway := Some(GatewaySpec(Exclusive, Convergent, "d", []))),
        "e" := Plain("e", EndEvent, "", [])]

  predicate Ending(eles: Index) {
    && eles.Keys == {"d", "a", "b", "c", "j", "e"} && IdsMatch(eles)
    && eles["d"].Targets() == ["a", "b", "c"] && eles["a"].Targets() == ["j"] && eles["b"].Targets() == ["j"]
    && eles["c"].outbound.None? && eles["e"].Targets() == []
  }

  lemma EndingShape()
    ensures Ending(ENDING)
  {
    hide TargetIds;
  }

  lemma EndingGraph(eles: Index)
    requires Ending(eles)
    ensures FollowGraph(eles, "j")
            == map["d" := ["a", "b", "c"], "a" := ["j"], "b" := ["j"], "c" := [], "j" := [], "e" := []]
  {
    hide TargetIds, Followed;
    FollowedOnes();
  }

  lemma EndingAcyclic(g: Graph)
    requires g == map["d" := ["a", "b", "c"], "a" := ["j"], "b" := ["j"], "c" := [], "j" := [], "e" := []]
    ensures AcyclicFrom(g, "d") && Reaches(g, "d", "c")
  {
    NumberedIsAcyclic(g, map["d" := 2, "a" := 1, "b" := 1, "c" := 0, "j" := 0, "e" := 0]);
    assert Edge(g, "d", "c") && WalkBetween(g, ["d", "c"], "d", "c");
    hide Reaches;
  }

  lemma EndingFails(eles: Index)
    requires Ending(eles)
    ensures Followable(eles, "d", "j") && !HasOutbound(eles, "d", "j")
  {
    hide AcyclicFrom, Reaches, FollowGraph, TargetIds;
    EndingGraph(eles);
    EndingAcyclic(FollowGraph(eles, "j"));
  }

  /** The walk for that pair comes by the end event and fails on its nil outbound. */
  lemma EndInABranchFails()
    ensures Followable(ENDING, "d", "j") && !HasOutbound(ENDING, "d", "j")
  {
    hide Plain, Ending, Followable, HasOutbound;
    EndingShape();
    EndingFails(ENDING);
  }

  // ---- When the order of the pairs matters ----

  /** One pair handled: its join is given what the walk collects. */
  ghost function Give(eles: Index, d: string, join: string): (r: Index)
    requires d in eles && Followable(eles, d, join)
    ensures SameShape(eles, r)
  {
    eles[join := eles[join].(outputTransform := WalkFrom(eles, d, 0, join, map[]))]
  }

  /** If the walk for one pair comes to the join of another, but not by all that the walk of the other comes by, then
      the outputs that the first join ends up with depend on which pair is handled first. */
  lemma CrossingPairsDependOnOrder(eles: Index, d: string, j: string, d1: string, j1: string, e: string, k: string)
    requires d in eles && d1 in eles && e in eles && Followable(eles, d, j) && Followable(eles, d1, j1) && j != j1
    requires Visits(eles, d, j, j1) && Visits(eles, d1, j1, e) && !Visits(eles, d, j, e)
    ensures var r := OnlyOutput(eles, e, k);
            && Followable(r, d, j) && Followable(r, d1, j1)
            && Followable(Give(r, d1, j1), d, j) && Followable(Give(r, d, j), d1, j1)
            && k in Give(Give(r, d1, j1), d, j)[j].outputTransform
            && k !in Give(Give(r, d, j), d1, j1)[j].outputTransform
  {
    hide Followable, WalkFrom, Visits, SameShape;
    var r := OnlyOutput(eles, e, k);
    SameShapeFollowable(eles, r, d, j);
    SameShapeFollowable(eles, r, d1, j1);
    var r1, r2 := Give(r, d1, j1), Give(r, d, j);
    SameShapeFollowable(r, r1, d, j);
    SameShapeFollowable(r, r2, d1, j1);
    Collected(r, d1, j1, e, k);
    Collected(r1, d, j, j1, k);
    NotCollected(eles, d, j, e, k);
  }

  lemma SameShapeFollowable(a: Index, b: Index, x: string, join: string)
    requires SameShape(a, b) && x in a && Followable(a, x, join)
    ensures x in b && Followable(b, x, join) && a.Keys == b.Keys && join in b
    ensures forall e :: Visits(a, x, join, e) <==> Visits(b, x, join, e)
  {
    SameShapeSamePaths(a, b, x, join);
    hide Visits;
  }

  lemma Collected(eles: Index, d: string, join: string, e: string, k: string)
    requires d in eles && Followable(eles, d, join) && Visits(eles, d, join, e) && e in eles
    requires k in eles[e].outputTransform
    ensures k in Give(eles, d, join)[join].outputTransform
  {
    FollowableEnds(eles, d, join);
    hide Followable, WalkFrom, Visits;
    WalkCollectsExactlyVisited(eles, d, join, k);
    assert OutputVisited(eles, d, join, k);
  }

  lemma FollowableEnds(eles: Index, d: string, join: string)
    requires Followable(eles, d, join)
    ensures d != join && join in eles
  {
  }

  lemma NotCollected(eles: Index, d: string, join: string, e: string, k: string)
    requires d in eles && Followable(eles, d, join) && !Visits(eles, d, join, e)
    requires Followable(OnlyOutput(eles, e, k), d, join)
    ensures k !in Give(OnlyOutput(eles, e, k), d, join)[join].outputTransform
  {
    FollowableEnds(eles, d, join);
    var r := OnlyOutput(eles, e, k);
    SameShapeFollowable(eles, r, d, join);
    hide Followable, WalkFrom, Visits;
    WalkCollectsExactlyVisited(r, d, join, k);
  }

  /** An index in which two elements set variable k, to different values, and nothing else is set. */
  function TwoOutputs(eles: Index, e: string, f: string, k: string, u: string, v: string): (r: Index)
    ensures SameShape(eles, r)
  {
    map x | x in eles ::
      eles[x].(outputTransform := if x == e then map[k := u] else if x == f then map[k := v] else map[])
  }

  /** e is come by last at n, f not after that, and j1 last at m, which is later. */
  predicate ComesLast(order: seq<string>, e: string, f: string, j1: string, n: nat, m: nat) {
    && n < m < |order| && order[n] == e && order[m] == j1
    && (forall i | n < i < |order| :: order[i] != e && order[i] != f)
    && forall i | m < i < |order| :: order[i] != j1
  }

  /** Whether or not pairs are nested: if the walk for one pair comes to the join of another after an element that the
      walk of the other passes over, then the value that the first join ends up with depends on which pair is handled
      first. */
  lemma NestedValuesDependOnOrder(eles: Index, d: string, j: string, d1: string, j1: string,
                                  e: string, f: string, k: string, u: string, v: string, n: nat, m: nat)
    requires d in eles && d1 in eles && e in eles && f in eles && j != j1 && e != f && u != v && j1 !in {e, f}
    requires Followable(eles, d, j) && Followable(eles, d1, j1)
    requires Visits(eles, d1, j1, f) && !Visits(eles, d1, j1, e)
    requires ComesLast(VisitOrder(eles, d, 0, j), e, f, j1, n, m)
    ensures var r := TwoOutputs(eles, e, f, k, u, v);
            && Followable(r, d, j) && Followable(r, d1, j1)
            && Followable(Give(r, d1, j1), d, j) && Followable(Give(r, d, j), d1, j1)
            && var a, b := Give(Give(r, d1, j1), d, j)[j], Give(Give(r, d, j), d1, j1)[j];
               && k in a.outputTransform && a.outputTransform[k] == v
               && k in b.outputTransform && b.outputTransform[k] == u
  {
    hide Followable, WalkFrom, VisitOrder, Visits, SameShape, ComesLast, TwoOutputs;
    var r := TwoOutputs(eles, e, f, k, u, v);
    SameShapeFollowable(eles, r, d, j);
    SameShapeFollowable(eles, r, d1, j1);
    var r1, r2 := Give(r, d1, j1), Give(r, d, j);
    SameShapeFollowable(r, r1, d, j);
    SameShapeFollowable(r, r2, d1, j1);
    SameVisitOrder(eles, r, d, 0, j);
    SameVisitOrder(r, r1, d, 0, j);
    EarlierGives(eles, r, d, j, e, f, j1, k, u, v, n, m);
    OtherGives(eles, d1, j1, e, f, k, u, v);
    LaterGives(eles, r1, d, j, e, f, j1, k, u, v, n, m);
  }

  lemma EarlierGives(eles: Index, r: Index, d: string, j: string, e: string, f: string, j1: string, k: string,
                     u: string, v: string, n: nat, m: nat)
    requires r == TwoOutputs(eles, e, f, k, u, v) && e in eles && d in r && Followable(r, d, j)
    requires ComesLast(VisitOrder(r, d, 0, j), e, f, j1, n, m)
    ensures var out := WalkFrom(r, d, 0, j, map[]); k in out && out[k] == u
  {
    hide Followable, WalkFrom, VisitOrder;
    LastSetterWins(r, d, j, k, n);
  }

  /** What the other join is given. */
  lemma OtherGives(eles: Index, d1: string, j1: string, e: string, f: string, k: string, u: string, v: string)
    requires d1 in eles && f in eles && e != f && Followable(eles, d1, j1)
    requires Visits(eles, d1, j1, f) && !Visits(eles, d1, j1, e)
    requires Followable(TwoOutputs(eles, e, f, k, u, v), d1, j1)
    ensures var out := WalkFrom(TwoOutputs(eles, e, f, k, u, v), d1, 0, j1, map[]); k in out && out[k] == v
  {
    FollowableEnds(eles, d1, j1);
    var r := TwoOutputs(eles, e, f, k, u, v);
    SameShapeFollowable(eles, r, d1, j1);
    hide Followable, WalkFrom, Visits;
    WalkCollectsExactlyVisited(r, d1, j1, k);
    assert Visits(r, d1, j1, f) && k in r[f].outputTransform;
  }

  lemma LaterGives(eles: Index, r1: Index, d: string, j: string, e: string, f: string, j1: string, k: string,
                   u: string, v: string, n: nat, m: nat)
    requires j1 in eles && j1 in r1 && r1 == TwoOutputs(eles, e, f, k, u, v)[j1 := r1[j1]] && d in r1
    requires k in r1[j1].outputTransform && r1[j1].outputTransform[k] == v && Followable(r1, d, j)
    requires ComesLast(VisitOrder(r1, d, 0, j), e, f, j1, n, m)
    ensures var out := WalkFrom(r1, d, 0, j, map[]); k in out && out[k] == v
  {
    hide Followable, WalkFrom, VisitOrder;
    LastSetterWins(r1, d, j, k, m);
  }

  lemma {:induction false} SameVisitOrder(a: Index, b: Index, x: string, i: nat, join: string)
    requires SameShape(a, b) && x in a && Followable(a, x, join) && i <= |a[x].Targets()| && GetsTo(a, x, i, join)
    requires x in b && Followable(b, x, join) && i <= |b[x].Targets()| && GetsTo(b, x, i, join)
    ensures VisitOrder(b, x, i, join) == VisitOrder(a, x, i, join)
    decreases Rank(a, x, join), |a[x].Targets()| - i
  {
    hide Followable, FollowGraph, Rank, TargetIds, SameShape;
    SameTargets(a, b, x);
    var ts := a[x].Targets();
    if i < |ts| {
      FollowStep(a, x, i, join);
      FollowStep(b, x, i, join);
      if ts[i] != join {
        SameTargets(a, b, ts[i]);
        SameVisitOrder(a, b, ts[i], 0, join);
        SameVisitOrder(a, b, x, i + 1, join);
      }
    }
  }

  // ---- All the joins of a process ----

  /** Which join each reciprocal split is walked to. When several joins name one split, the last in
      the order the index is gone through wins. */
  function Pairs(eles: Index, order: seq<string>): (pairs: map<string, string>)
    requires forall x | x in order :: x in eles
    ensures forall d | d in pairs :: pairs[d] in eles && eles[pairs[d]].IsJoin()
                                     && eles[pairs[d]].gateway.value.reciprocalId == d
  {
    if order == [] then map[]
    else
      var before, e := Pairs(eles, order[..|order| - 1]), eles[order[|order| - 1]];
      if e.IsJoin() then before[e.gateway.value.reciprocalId := order[|order| - 1]] else before
  }

  predicate Names(eles: Index, j: string, d: string) {
    j in eles && eles[j].IsJoin() && eles[j].gateway.value.reciprocalId == d
  }

  /** Every join in the order is paired with the split it names, or another one further on is. */
  lemma {:induction false} PairsAre(eles: Index, order: seq<string>, d: string)
    requires forall x | x in order :: x in eles
    ensures d in Pairs(eles, order) <==> exists n :: 0 <= n < |order| && Names(eles, order[n], d)
    ensures forall n | 0 <= n < |order| && Names(eles, order[n], d)
              && (forall m | n < m < |order| :: !Names(eles, order[m], d)) ::
              d in Pairs(eles, order) && Pairs(eles, order)[d] == order[n]
  {
    if order != [] {
      var l := |order| - 1;
      PairsAre(eles, order[..l], d);
      assert forall n | 0 <= n < l :: order[..l][n] == order[n];
    }
  }

  ghost predicate PairsWalkable(eles: Index, pairs: map<string, string>) {
    && IdsMatch(eles)
    && forall d | d in pairs :: d in eles && d != pairs[d] && Walkable(eles, d, pairs[d])
  }

  method FindPairs(eles: Index, order: seq<string>) returns (pairs: map<string, string>)
    requires IdsMatch(eles) && forall x | x in order :: x in eles
    requires forall x | x in eles :: eles[x].typ.Gateway? ==> eles[x].gateway.Some?
    ensures pairs == Pairs(eles, order)
  {
    pairs := map[];
    for i := 0 to |order|
      invariant pairs == Pairs(eles, order[..i])
    {
      assert order[..i + 1][..i] == order[..i];
      var e := eles[order[i]];
      if e.typ.Gateway? && e.gateway.value.direction == Convergent {
        pairs := pairs[e.gateway.value.reciprocalId := e.id];
      }
    }
    assert order[..|order|] == order;
  }

  /** The variables that a parallel join adds during validation: the outputs of every split-join pair. */
  ghost function MergedOutputs(eles: Index, pairs: map<string, string>): (vars: set<string>)
    requires PairsWalkable(eles, pairs)
  {
    MergedOver(eles, pairs, pairs.Keys)
  }

  ghost function MergedOver(eles: Index, pairs: map<string, string>, splits: set<string>): (vars: set<string>)
    requires PairsWalkable(eles, pairs) && splits <= pairs.Keys
  {
    set d, k | d in splits && k in WalkFrom(eles, d, 0, pairs[d], map[]) :: k
  }

  method MergeConvergentOutputs(eles: Index, order: seq<string>) returns (vars: set<string>)
    requires IdsMatch(eles) && forall x | x in order :: x in eles
    requires forall x | x in eles :: eles[x].typ.Gateway? ==> eles[x].gateway.Some?
    requires PairsWalkable(eles, Pairs(eles, order))
    ensures vars == MergedOutputs(eles, Pairs(eles, order))
  {
    hide Followable, HasOutbound;
    var pairs := FindPairs(eles, order);
    var todo := pairs.Keys;
    vars := {};
    while todo != {}
      invariant todo <= pairs.Keys
      invariant vars == MergedOver(eles, pairs, pairs.Keys - todo)
    {
      var d :| d in todo;
      var ok, found := FindGatewayBranchOutputTransforms(map[], d, pairs[d], eles);
      assert ok;
      vars := vars + found.Keys;
      todo := todo - {d};
    }
    assert pairs.Keys - todo == pairs.Keys;
  }

  /** These are the outputs of the elements that the walks come by. */
  lemma MergedAreVisited(eles: Index, pairs: map<string, string>, k: string)
    requires PairsWalkable(eles, pairs)
    ensures k in MergedOutputs(eles, pairs) <==> exists d :: d in pairs && OutputVisited(eles, d, pairs[d], k)
  {
    hide Followable, HasOutbound, OutputVisited, WalkFrom;
    forall d | d in pairs
      ensures k in WalkFrom(eles, d, 0, pairs[d], map[]) <==> OutputVisited(eles, d, pairs[d], k)
    {
      WalkCollectsExactlyVisited(eles, d, pairs[d], k);
    }
  }

  /** Split-join pairs are nested: a join inside another pair has its whole region inside it. */
  ghost predicate Nested(eles: Index, pairs: map<string, string>) {
    forall d, d1, e | d in pairs && d1 in pairs && Visits(eles, d, pairs[d], pairs[d1])
      && Visits(eles, d1, pairs[d1], e) ::
      Visits(eles, d, pairs[d], e)
  }

  /** Every walk ends and comes to its join. */
  ghost predicate Structured(eles: Index, pairs: map<string, string>) {
    && PairsWalkable(eles, pairs)
    && Nested(eles, pairs)
    && forall d | d in pairs :: Visits(eles, d, pairs[d], pairs[d])
  }

  ghost predicate SameOutputs(a: Index, b: Index, pairs: map<string, string>) {
    forall d, k | d in pairs :: OutputVisited(a, d, pairs[d], k) <==> OutputVisited(b, d, pairs[d], k)
  }

  class Process {
    var eles: Index

    constructor (eles: Index)
      ensures this.eles == eles
    {
      this.eles := eles;
    }

    /** After parsing: every paired join is given the outputs of its region, which is what its walk comes by and, where
        flows into the join are listed last, all that lies between the split and it. Whatever the order in which the
        joins are handled, a join inside another pair being rewritten first or later changes nothing in which these
        are. The value of each is one that an element of the region had; where the region holds no other paired join it
        is that of the last element to set it. */
    method PopulateConvergentGatewayOutputTransforms(order: seq<string>)
      requires IdsMatch(eles) && forall x | x in order :: x in eles
      requires forall x | x in eles :: eles[x].typ.Gateway? ==> eles[x].gateway.Some?
      requires Structured(eles, Pairs(eles, order))
      modifies this
      ensures SameShape(old(eles), eles)
      ensures forall x | x in eles && x !in Pairs(old(eles), order).Values :: eles[x] == old(eles)[x]
      ensures forall d, k | d in Pairs(old(eles), order) ::
                var join := Pairs(old(eles), order)[d];
                && (k in eles[join].outputTransform <==> OutputVisited(old(eles), d, join, k))
                && (NoDeadEnds(old(eles), d, join) && JoinEdgesLast(old(eles), join) ==>
                      (k in eles[join].outputTransform <==> OutputBetween(old(eles), d, join, k)))
      ensures forall d, k | d in Pairs(old(eles), order) && k in eles[Pairs(old(eles), order)[d]].outputTransform ::
                var join := Pairs(old(eles), order)[d];
                ValueVisited(old(eles), d, join, k, eles[join].outputTransform[k])
      ensures forall d | d in Pairs(old(eles), order) && Alone(old(eles), Pairs(old(eles), order), d) ::
                var join := Pairs(old(eles), order)[d];
                GivesLast(old(eles), d, join, eles[join].outputTransform)
    {
      hide Structured, Followable, HasOutbound, SameOutputs, WalkFrom, JoinEdgesLast, NoDeadEnds, OutputVisited,
        OutputBetween, Pairs, ValueVisited, GivesLast, Alone, Valued, ValuesKept;
      var pairs := FindPairs(eles, order);
      ghost var was := eles;
      var todo := pairs.Keys;
      SameOutputsReflexive(was, pairs);
      ValuedAtFirst(was, pairs);
      while todo != {}
        invariant todo <= pairs.Keys && Populated(was, eles, pairs, todo) && Valued(was, eles, pairs, todo)
      {
        var d :| d in todo;
        PairReady(was, eles, pairs, d);
        var ok, found := FindGatewayBranchOutputTransforms(map[], d, pairs[d], eles);
        assert ok;
        PairCollected(was, eles, pairs, d);
        ghost var before := eles;
        eles := eles[pairs[d] := eles[pairs[d]].(outputTransform := found)];
        PopulatedStep(was, before, eles, pairs, d, todo);
        ValuedStep(was, before, eles, pairs, d, todo);
        todo := todo - {d};
      }
      forall d, k | d in pairs && NoDeadEnds(was, d, pairs[d]) && JoinEdgesLast(was, pairs[d])
        ensures OutputVisited(was, d, pairs[d], k) <==> OutputBetween(was, d, pairs[d], k)
      {
        PairReady(was, was, pairs, d);
        VisitedIffBetween(was, d, pairs[d], k);
      }
      forall d | d in pairs
        ensures DoneValued(was, eles, pairs, d)
      {
        ValuedDone(was, eles, pairs, d);
      }
    }
  }

  /** The walk of d comes to no join of another pair. */
  ghost predicate Alone(eles: Index, pairs: map<string, string>, d: string)
    requires d in pairs
  {
    forall c | c in pairs && c != d :: !Visits(eles, d, pairs[d], pairs[c])
  }

  /** No region has been given a value that it did not have. */
  ghost predicate ValuesKept(was: Index, eles: Index, pairs: map<string, string>) {
    forall d, k, v | d in pairs && ValueVisited(eles, d, pairs[d], k, v) :: ValueVisited(was, d, pairs[d], k, v)
  }

  /** The join of d has been given values from its region, the last of each if there is no other join in it. */
  ghost predicate DoneValued(was: Index, eles: Index, pairs: map<string, string>, d: string)
    requires d in pairs
  {
    && pairs[d] in eles
    && (forall k | k in eles[pairs[d]].outputTransform ::
          ValueVisited(was, d, pairs[d], k, eles[pairs[d]].outputTransform[k]))
    && (Alone(was, pairs, d) ==> GivesLast(was, d, pairs[d], eles[pairs[d]].outputTransform))
  }

  ghost predicate Valued(was: Index, eles: Index, pairs: map<string, string>, todo: set<string>) {
    && ValuesKept(was, eles, pairs)
    && forall d | d in pairs ::
         if d in todo then pairs[d] in was && pairs[d] in eles && eles[pairs[d]] == was[pairs[d]]
         else DoneValued(was, eles, pairs, d)
  }

  lemma ValuedAtFirst(was: Index, pairs: map<string, string>)
    requires forall d | d in pairs :: pairs[d] in was
    ensures Valued(was, was, pairs, pairs.Keys)
  {
    hide ValueVisited, DoneValued;
  }

  lemma ValuedDone(was: Index, eles: Index, pairs: map<string, string>, d: string)
    requires Valued(was, eles, pairs, {}) && d in pairs
    ensures DoneValued(was, eles, pairs, d)
  {
    hide DoneValued;
  }

  lemma ValuedStep(was: Index, eles: Index, next: Index, pairs: map<string, string>, d: string, todo: set<string>)
    requires Structured(was, pairs) && Populated(was, eles, pairs, todo) && Valued(was, eles, pairs, todo)
    requires d in pairs && d in todo && d in eles && pairs[d] in eles && Followable(eles, d, pairs[d])
    requires next == eles[pairs[d] := eles[pairs[d]].(outputTransform := WalkFrom(eles, d, 0, pairs[d], map[]))]
    ensures Valued(was, next, pairs, todo - {d})
  {
    hide Structured, Followable, SameOutputs, DoneValued, SameShape, WalkFrom, ValuesKept;
    FoundValued(was, eles, next, pairs, d, todo);
    StepKeepsValues(was, eles, next, pairs, d);
    forall c | c in pairs && c != d
      ensures pairs[c] != pairs[d]
    {
      assert was[pairs[c]].gateway.value.reciprocalId == c;
    }
    forall c | c in pairs && c !in todo
      ensures DoneValued(was, next, pairs, c)
    {
      SameDone(was, eles, next, pairs, c);
    }
  }

  lemma SameDone(was: Index, eles: Index, next: Index, pairs: map<string, string>, c: string)
    requires c in pairs && DoneValued(was, eles, pairs, c)
    requires pairs[c] in eles ==> pairs[c] in next && next[pairs[c]] == eles[pairs[c]]
    ensures DoneValued(was, next, pairs, c)
  {
    hide ValueVisited, GivesLast, Alone;
  }

  /** What is found for a join are values that its region had. */
  lemma FoundVisited(was: Index, eles: Index, pairs: map<string, string>, d: string, k: string)
    requires ValuesKept(was, eles, pairs) && d in pairs && d in eles && Followable(eles, d, pairs[d])
    requires k in WalkFrom(eles, d, 0, pairs[d], map[])
    ensures ValueVisited(was, d, pairs[d], k, WalkFrom(eles, d, 0, pairs[d], map[])[k])
  {
    FollowableEnds(eles, d, pairs[d]);
    hide Followable, WalkFrom, ValueVisited;
    WalkCollectsExactlyVisited(eles, d, pairs[d], k);
  }

  lemma FoundValued(was: Index, eles: Index, next: Index, pairs: map<string, string>, d: string, todo: set<string>)
    requires Structured(was, pairs) && Populated(was, eles, pairs, todo) && Valued(was, eles, pairs, todo)
    requires d in pairs && d in todo && d in eles && pairs[d] in eles && Followable(eles, d, pairs[d])
    requires next == eles[pairs[d] := eles[pairs[d]].(outputTransform := WalkFrom(eles, d, 0, pairs[d], map[]))]
    ensures DoneValued(was, next, pairs, d)
  {
    hide Structured, Followable, SameOutputs, WalkFrom, ValueVisited, GivesLast, Visits, ValuesKept;
    forall k | k in next[pairs[d]].outputTransform
      ensures ValueVisited(was, d, pairs[d], k, next[pairs[d]].outputTransform[k])
    {
      FoundVisited(was, eles, pairs, d, k);
    }
    if Alone(was, pairs, d) {
      PairReady(was, was, pairs, d);
      forall e | Visits(was, d, pairs[d], e) && e in was
        ensures e in eles && eles[e].outputTransform == was[e].outputTransform
      {
        UntouchedThere(was, eles, pairs, d, todo, e);
      }
      SameWalk(was, eles, d, 0, pairs[d], map[]);
      WalkGivesLast(was, d, pairs[d]);
    }
  }

  lemma UntouchedThere(was: Index, eles: Index, pairs: map<string, string>, d: string, todo: set<string>, e: string)
    requires Populated(was, eles, pairs, todo) && Valued(was, eles, pairs, todo) && d in pairs && d in todo
    requires Alone(was, pairs, d) && Visits(was, d, pairs[d], e) && e in was
    ensures e in eles && eles[e].outputTransform == was[e].outputTransform
  {
    hide Visits, ValuesKept, DoneValued, SameOutputs, OutputVisited;
    if e in pairs.Values {
      var c :| c in pairs && pairs[c] == e;
    }
  }

  /** The walk depends on the outputs of the elements it comes by, and on no others. */
  lemma {:induction false} SameWalk(a: Index, b: Index, x: string, i: nat, join: string, acc: map<string, string>)
    requires SameShape(a, b) && x in a && Followable(a, x, join) && i <= |a[x].Targets()| && GetsTo(a, x, i, join)
    requires x in b && Followable(b, x, join) && i <= |b[x].Targets()| && GetsTo(b, x, i, join)
    requires forall e | Visits(a, x, join, e) && e in a :: e in b && b[e].outputTransform == a[e].outputTransform
    ensures WalkFrom(b, x, i, join, acc) == WalkFrom(a, x, i, join, acc)
    decreases Rank(a, x, join), |a[x].Targets()| - i
  {
    hide Followable, FollowGraph, Rank, Visits, TargetIds, SameShape;
    SameTargets(a, b, x);
    var ts := a[x].Targets();
    if i < |ts| {
      FollowStep(a, x, i, join);
      FollowStep(b, x, i, join);
      VisitsBeyond(a, x, ts[i], join, ts[i]);
      if ts[i] != join {
        var acc1 := acc + a[ts[i]].outputTransform;
        forall e | Visits(a, ts[i], join, e) && e in a
          ensures e in b && b[e].outputTransform == a[e].outputTransform
        {
          VisitsBeyond(a, x, ts[i], join, e);
        }
        SameTargets(a, b, ts[i]);
        SameWalk(a, b, ts[i], 0, join, acc1);
        SameWalk(a, b, x, i + 1, join, WalkFrom(a, ts[i], 0, join, acc1));
      }
    }
  }

  lemma SameTargets(a: Index, b: Index, x: string)
    requires SameShape(a, b) && x in a
    ensures x in b && b[x].Targets() == a[x].Targets()
  {
  }

  /** Giving one join the values of its region gives no region a value it did not have. */
  lemma StepKeepsValues(was: Index, eles: Index, next: Index, pairs: map<string, string>, d: string)
    requires Structured(was, pairs) && SameShape(was, eles) && ValuesKept(was, eles, pairs)
    requires d in pairs && d in eles && pairs[d] in eles && Followable(eles, d, pairs[d])
    requires next == eles[pairs[d] := eles[pairs[d]].(outputTransform := WalkFrom(eles, d, 0, pairs[d], map[]))]
    ensures ValuesKept(was, next, pairs)
  {
    hide Structured, Followable, SameShape, WalkFrom, ValueVisited, ValuesKept;
    forall c, k, v | c in pairs && ValueVisited(next, c, pairs[c], k, v)
      ensures ValueVisited(was, c, pairs[c], k, v)
    {
      RegionKeepsValue(was, eles, next, pairs, d, c, k, v);
    }
    ValuesKeptWhen(was, next, pairs);
  }

  lemma ValuesKeptWhen(was: Index, eles: Index, pairs: map<string, string>)
    requires forall d, k, v | d in pairs && ValueVisited(eles, d, pairs[d], k, v) ::
               ValueVisited(was, d, pairs[d], k, v)
    ensures ValuesKept(was, eles, pairs)
  {
    hide ValueVisited;
  }

  lemma RegionKeepsValue(was: Index, eles: Index, next: Index, pairs: map<string, string>, d: string, c: string,
                         k: string, v: string)
    requires Structured(was, pairs) && SameShape(was, eles) && ValuesKept(was, eles, pairs)
    requires d in pairs && c in pairs && d in eles && pairs[d] in eles && Followable(eles, d, pairs[d])
    requires next == eles[pairs[d] := eles[pairs[d]].(outputTransform := WalkFrom(eles, d, 0, pairs[d], map[]))]
    requires ValueVisited(next, c, pairs[c], k, v)
    ensures ValueVisited(was, c, pairs[c], k, v)
  {
    hide Followable, Visits, PairsWalkable, SameShape, WalkFrom, ValuesKept;
    SameShapeNext(was, eles, next, pairs[d]);
    SameVisits(was, eles, c, pairs[c]);
    SameVisits(was, next, c, pairs[c]);
    var e :| Visits(next, c, pairs[c], e) && e in next && k in next[e].outputTransform
             && next[e].outputTransform[k] == v;
    if e == pairs[d] {
      FoundVisited(was, eles, pairs, d, k);
      var e1 :| Visits(was, d, pairs[d], e1) && e1 in was && k in was[e1].outputTransform
                && was[e1].outputTransform[k] == v;
      assert Visits(was, c, pairs[c], e1);
    } else {
      assert ValueVisited(eles, c, pairs[c], k, v);
      KeptThere(was, eles, pairs, c, k, v);
    }
  }

  lemma KeptThere(was: Index, eles: Index, pairs: map<string, string>, d: string, k: string, v: string)
    requires ValuesKept(was, eles, pairs) && d in pairs && ValueVisited(eles, d, pairs[d], k, v)
    ensures ValueVisited(was, d, pairs[d], k, v)
  {
    hide ValueVisited;
  }

  /** How far populating has got: the joins of all pairs but those still to do hold the outputs of their regions. */
  ghost predicate Populated(was: Index, eles: Index, pairs: map<string, string>, todo: set<string>) {
    && SameShape(was, eles)
    && (forall d | d in pairs :: pairs[d] in was && was[pairs[d]].gateway.Some?
                                 && was[pairs[d]].gateway.value.reciprocalId == d)
    && (forall x | x in eles && x !in pairs.Values :: eles[x] == was[x])
    && SameOutputs(was, eles, pairs)
    && (forall d, k | d in pairs && d !in todo ::
          k in eles[pairs[d]].outputTransform <==> OutputVisited(was, d, pairs[d], k))
  }

  lemma PopulatedStep(was: Index, eles: Index, next: Index, pairs: map<string, string>, d: string, todo: set<string>)
    requires Structured(was, pairs) && Populated(was, eles, pairs, todo)
    requires d in pairs && d in eles && pairs[d] in eles && pairs[d] in next && Walkable(eles, d, pairs[d])
    requires next == eles[pairs[d] := eles[pairs[d]].(outputTransform := next[pairs[d]].outputTransform)]
    requires forall k :: k in next[pairs[d]].outputTransform <==> OutputVisited(was, d, pairs[d], k)
    ensures Populated(was, next, pairs, todo - {d})
  {
    hide Structured, Followable, HasOutbound, SameOutputs, OutputVisited;
    PopulateKeeps(was, eles, next, pairs, d);
    assert pairs[d] in pairs.Values;
  }

  lemma PairReady(was: Index, eles: Index, pairs: map<string, string>, d: string)
    requires Structured(was, pairs) && SameShape(was, eles) && d in pairs
    ensures d in eles && d != pairs[d] && pairs[d] in eles && Walkable(eles, d, pairs[d])
  {
    hide Nested;
    SameShapeSamePaths(was, eles, d, pairs[d]);
  }

  lemma PairCollected(was: Index, eles: Index, pairs: map<string, string>, d: string)
    requires Structured(was, pairs) && SameShape(was, eles) && SameOutputs(was, eles, pairs) && d in pairs
    requires d in eles && Walkable(eles, d, pairs[d])
    ensures forall k :: k in WalkFrom(eles, d, 0, pairs[d], map[]) <==> OutputVisited(was, d, pairs[d], k)
  {
    hide Followable, HasOutbound, NoDeadEnds, JoinEdgesLast, OutputVisited, WalkFrom;
    PairReady(was, eles, pairs, d);
    forall k
      ensures k in WalkFrom(eles, d, 0, pairs[d], map[]) <==> OutputVisited(was, d, pairs[d], k)
    {
      WalkCollectsExactlyVisited(eles, d, pairs[d], k);
    }
  }

  /** Giving one join the outputs of its region changes the outputs of no region. */
  lemma PopulateKeeps(was: Index, eles: Index, next: Index, pairs: map<string, string>, d: string)
    requires Structured(was, pairs) && SameShape(was, eles) && SameOutputs(was, eles, pairs)
    requires d in pairs && pairs[d] in eles && pairs[d] in next
    requires next == eles[pairs[d] := eles[pairs[d]].(outputTransform := next[pairs[d]].outputTransform)]
    requires forall k :: k in next[pairs[d]].outputTransform <==> OutputVisited(was, d, pairs[d], k)
    ensures SameShape(was, next) && SameOutputs(was, next, pairs)
  {
    hide Structured, SameShape, OutputVisited, SameOutputs;
    SameShapeNext(was, eles, next, pairs[d]);
    forall c, k | c in pairs
      ensures OutputVisited(was, c, pairs[c], k) <==> OutputVisited(next, c, pairs[c], k)
    {
      RegionKeeps(was, eles, next, pairs, d, c, k);
    }
    SameOutputsWhen(was, next, pairs);
  }

  lemma SameOutputsWhen(a: Index, b: Index, pairs: map<string, string>)
    requires forall d, k | d in pairs :: OutputVisited(a, d, pairs[d], k) <==> OutputVisited(b, d, pairs[d], k)
    ensures SameOutputs(a, b, pairs)
  {
    hide OutputVisited;
  }

  lemma RegionKeeps(was: Index, eles: Index, next: Index, pairs: map<string, string>, d: string, c: string, k: string)
    requires Structured(was, pairs) && SameShape(was, eles) && SameOutputs(was, eles, pairs)
    requires d in pairs && c in pairs && pairs[d] in eles && pairs[d] in next
    requires next == eles[pairs[d] := eles[pairs[d]].(outputTransform := next[pairs[d]].outputTransform)]
    requires forall k :: k in next[pairs[d]].outputTransform <==> OutputVisited(was, d, pairs[d], k)
    ensures OutputVisited(was, c, pairs[c], k) <==> OutputVisited(next, c, pairs[c], k)
  {
    hide Followable, HasOutbound, Visits, PairsWalkable, SameShape;
    SameShapeNext(was, eles, next, pairs[d]);
    SameVisits(was, eles, c, pairs[c]);
    SameVisits(was, next, c, pairs[c]);
    SameVisits(was, eles, d, pairs[d]);
    if e :| Visits(next, c, pairs[c], e) && e in next && k in next[e].outputTransform {
      if e == pairs[d] {
        var e1 :| Visits(was, d, pairs[d], e1) && e1 in was && k in was[e1].outputTransform;
        assert Visits(was, c, pairs[c], e1);
      } else {
        assert OutputVisited(eles, c, pairs[c], k);
      }
    }
    if OutputVisited(was, c, pairs[c], k) {
      var e :| Visits(eles, c, pairs[c], e) && e in eles && k in eles[e].outputTransform;
      if e == pairs[d] {
        assert OutputVisited(eles, d, pairs[d], k);
      }
      assert k in next[e].outputTransform;
    }
  }

  lemma SameShapeNext(was: Index, eles: Index, next: Index, j: string)
    requires SameShape(was, eles) && j in eles && j in next
    requires next == eles[j := eles[j].(outputTransform := next[j].outputTransform)]
    ensures SameShape(was, next)
  {
  }

  lemma SameVisits(a: Index, b: Index, x: string, join: string)
    requires SameShape(a, b)
    ensures a.Keys == b.Keys && forall e :: Visits(a, x, join, e) <==> Visits(b, x, join, e)
  {
    SameShapeSamePaths(a, b, x, join);
    hide Visits;
  }

  lemma SameOutputsReflexive(eles: Index, pairs: map<string, string>)
    ensures SameOutputs(eles, eles, pairs)
  {
  }
}
