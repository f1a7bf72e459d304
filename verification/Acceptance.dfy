/** What it means for a process to be accepted by the scan for missing end events: where runs can go, and whether the
    scan has seen it all (common/linter/linter.go, with the runs of internal/server/workflow/engine.go). */
module Acceptance {
  import opened Graph
  import opened Linter
  import opened Model
  import opened ScanWays

  // ---- Where a run can go ----

  /** A run leaves x for y by a flow, by an error caught at x, by a timer on its boundary, or from a link throw to a
      catch of the same name. */
  predicate RunEdge(eles: Index, x: string, y: string) {
    && x in eles && y in eles
    && (|| y in eles[x].Targets()
        || (exists i :: 0 <= i < |eles[x].errors| && eles[x].errors[i].target == y)
        || (exists i :: 0 <= i < |eles[x].timers| && eles[x].timers[i].target == y)
        || (eles[x].typ.LinkThrow? && eles[y].typ.LinkCatch? && eles[x].execute == eles[y].execute))
  }

  predicate RunWay(eles: Index, w: seq<string>) {
    w != [] && forall k | 0 <= k < |w| - 1 :: RunEdge(eles, w[k], w[k + 1])
  }

  ghost predicate RunReached(eles: Index, starts: seq<string>, v: string) {
    exists w :: RunWay(eles, w) && w[0] in starts && w[|w| - 1] == v
  }

  /** Whatever a caught error, a timer or a link leads to from a reachable element, flows lead there too. */
  ghost predicate SideExitsCovered(eles: Index, starts: seq<string>) {
    forall x, y | x in Reached(eles, starts) && RunEdge(eles, x, y) :: y in Reached(eles, starts)
  }

  lemma RunFurther(eles: Index, starts: seq<string>, x: string, y: string)
    requires RunReached(eles, starts, x) && RunEdge(eles, x, y)
    ensures RunReached(eles, starts, y)
  {
    hide RunEdge;
    var w :| RunWay(eles, w) && w[0] in starts && w[|w| - 1] == x;
    var w1 := w + [y];
    assert RunWay(eles, w1) by {
      forall k | 0 <= k < |w1| - 1
        ensures RunEdge(eles, w1[k], w1[k + 1])
      {
        if k < |w| - 1 {
          assert RunEdge(eles, w[k], w[k + 1]);
        }
      }
    }
  }

  /** Runs go at least where the scan can. */
  lemma {:induction false} ScanWalkIsRun(eles: Index, starts: seq<string>, w: seq<string>, k: nat)
    requires Closed(eles) && IsWalk(ScanGraph(eles), w) && w[0] in starts && k < |w|
    ensures RunReached(eles, starts, w[k])
  {
    if k == 0 {
      assert RunWay(eles, [w[0]]);
    } else {
      ScanWalkIsRun(eles, starts, w, k - 1);
      assert Edge(ScanGraph(eles), w[k - 1], w[k - 1 + 1]);
      if w[k] != w[k - 1] {
        assert RunEdge(eles, w[k - 1], w[k]);
        RunFurther(eles, starts, w[k - 1], w[k]);
      }
    }
  }

  lemma ReachedIsRunReached(eles: Index, starts: seq<string>, v: string)
    requires Closed(eles) && ReachedFrom(eles, starts, v)
    ensures RunReached(eles, starts, v)
  {
    hide Closed, ScanGraph, RunReached;
    var s :| s in starts && Reaches(ScanGraph(eles), s, v);
    var w :| WalkBetween(ScanGraph(eles), w, s, v);
    ScanWalkIsRun(eles, starts, w, |w| - 1);
  }

  lemma {:induction false} RunStays(eles: Index, starts: seq<string>, w: seq<string>, k: nat)
    requires Closed(eles) && StartsKnown(eles, starts) && SideExitsCovered(eles, starts)
    requires RunWay(eles, w) && w[0] in starts && k < |w|
    ensures w[k] in Reached(eles, starts)
  {
    hide Closed, ReachedFrom, RunEdge;
    if k == 0 {
      ReachedIsWithin(eles, starts);
    } else {
      RunStays(eles, starts, w, k - 1);
      assert RunEdge(eles, w[k - 1], w[k - 1 + 1]);
    }
  }

  /** Runs go no further than the flows of the scan if and only if side exits are covered. */
  lemma RunsStayIffSideExitsCovered(eles: Index, starts: seq<string>)
    requires Closed(eles) && StartsKnown(eles, starts)
    ensures (forall v | RunReached(eles, starts, v) :: v in Reached(eles, starts)) <==> SideExitsCovered(eles, starts)
  {
    hide Closed, ReachedFrom, RunEdge;
    if SideExitsCovered(eles, starts) {
      forall v | RunReached(eles, starts, v)
        ensures v in Reached(eles, starts)
      {
        var w :| RunWay(eles, w) && w[0] in starts && w[|w| - 1] == v;
        RunStays(eles, starts, w, |w| - 1);
      }
    }
    if forall v | RunReached(eles, starts, v) :: v in Reached(eles, starts) {
      hide RunReached;
      forall x, y | x in Reached(eles, starts) && RunEdge(eles, x, y)
        ensures y in Reached(eles, starts)
      {
        ReachedIsRunReached(eles, starts, x);
        RunFurther(eles, starts, x, y);
      }
    }
  }

  /** Where the flows are decided: every element that a run can come to is entered if and only if it can be come to
      without a link, a caught error, a timer or a flow listed after one that stops the scan. */
  lemma EntersEveryRunIff(eles: Index, starts: seq<string>)
    requires Closed(eles) && StartsKnown(eles, starts) && Decided(eles, starts)
    ensures (forall v | RunReached(eles, starts, v) :: v in Entered(eles, starts, |starts|))
            <==> (forall v | RunReached(eles, starts, v) :: KeptReached(eles, starts, v))
  {
    hide Closed, Decided, Entered, RunReached, KeptReached;
    forall v
      ensures v in Entered(eles, starts, |starts|) <==> KeptReached(eles, starts, v)
    {
      EnteredIffKept(eles, starts, v);
    }
  }

  // ---- What acceptance means ----

  ghost predicate AcceptanceRight(eles: Index, starts: seq<string>)
    requires Closed(eles) && StartsKnown(eles, starts)
  {
    ScanStarts(eles, starts, |starts|).error.None? <==>
    forall v | v in eles && RunReached(eles, starts, v) :: Fault(eles, v).None?
  }

  /** What the scan reports is the fault of an element that a run can come to. */
  lemma ReportsAreReachable(eles: Index, starts: seq<string>)
    requires Closed(eles) && StartsKnown(eles, starts)
    ensures var r := ScanStarts(eles, starts, |starts|);
            && (forall v | v in r.visited :: v in eles && RunReached(eles, starts, v))
            && (r.error.Some? ==> && r.error.value.id in eles && Fault(eles, r.error.value.id) == r.error
                                  && RunReached(eles, starts, r.error.value.id))
  {
    hide Closed, ScanStarts, Entered, Fault, ReachedFrom, RunReached;
    ScanStartsAgrees(eles, starts, |starts|);
    EnteredIsReached(eles, starts);
    forall v | v in Entered(eles, starts, |starts|)
      ensures RunReached(eles, starts, v)
    {
      ReachedIsRunReached(eles, starts, v);
    }
  }

  /** When no flow listed before another can stop the scan, and no link, caught error or timer leads where flows do
      not, a process is accepted if and only if no element that a run can come to is at fault: every dead end a run
      can come to is an end event. */
  lemma AcceptsIffNoFaultReachable(eles: Index, starts: seq<string>)
    requires Closed(eles) && StartsKnown(eles, starts)
    requires EarlyFlowsFree(eles, starts) && SideExitsCovered(eles, starts)
    ensures AcceptanceRight(eles, starts)
  {
    hide Closed, ScanStarts, Fault, ReachedFrom, RunReached, Entered, EarlyFlowsFree, SideExitsCovered;
    AcceptsIffEnteredFaultless(eles, starts);
    ReportsAreReachable(eles, starts);
    RunsStayIffSideExitsCovered(eles, starts);
    forall v | v in eles && RunReached(eles, starts, v)
      ensures v in Entered(eles, starts, |starts|)
    {
      EntersAllReached(eles, starts, v);
    }
  }

  /** Two processes that differ in the types of their elements only, and agree on what is a link. */
  predicate Retyped(a: Index, b: Index) {
    && a.Keys == b.Keys
    && forall x | x in a :: && b[x] == a[x].(typ := b[x].typ) && (a[x].typ.LinkThrow? <==> b[x].typ.LinkThrow?)
                            && (a[x].typ.LinkCatch? <==> b[x].typ.LinkCatch?)
  }

  predicate Faultless(eles: Index) {
    forall x | x in eles :: Fault(eles, x).None?
  }

  lemma RetypedAt(a: Index, b: Index, x: string)
    requires Retyped(a, b) && x in a
    ensures x in b && ScanTargets(a, x) == ScanTargets(b, x) && HasPartner(a, x) == HasPartner(b, x)
  {
    assert a[x].Targets() == b[x].Targets();
    assert forall y | y in a :: a[y].execute == b[y].execute;
  }

  lemma RetypedClosed(a: Index, b: Index)
    requires Retyped(a, b) && Closed(a)
    ensures Closed(b)
  {
    forall x | x in a
      ensures ScanTargets(a, x) == ScanTargets(b, x)
    {
      RetypedAt(a, b, x);
    }
    assert forall x | x in a :: a[x].id == b[x].id;
  }

  lemma RetypedRuns(a: Index, b: Index, starts: seq<string>, v: string)
    requires Retyped(a, b) && RunReached(a, starts, v)
    ensures RunReached(b, starts, v)
  {
    var w :| RunWay(a, w) && w[0] in starts && w[|w| - 1] == v;
    forall k | 0 <= k < |w| - 1
      ensures RunEdge(b, w[k], w[k + 1])
    {
      RetypedEdge(a, b, w[k], w[k + 1]);
    }
  }

  lemma RetypedEdge(a: Index, b: Index, x: string, y: string)
    requires Retyped(a, b) && RunEdge(a, x, y)
    ensures RunEdge(b, x, y)
  {
    assert a[x].Targets() == b[x].Targets();
  }

  lemma {:induction false} RetypedEnterFrom(a: Index, b: Index, x: string, i: nat, visited: set<string>)
    requires Retyped(a, b) && Closed(a) && Closed(b) && x in a && x in b
    requires i <= |ScanTargets(a, x)| && i <= |ScanTargets(b, x)|
    ensures EnterFrom(a, x, i, visited) == EnterFrom(b, x, i, visited)
    decreases |a.Keys - visited|, |ScanTargets(a, x)| - i
  {
    hide Closed, Retyped, ScanTargets;
    RetypedAt(a, b, x);
    var ts := ScanTargets(a, x);
    if i < |ts| && ts[i] !in visited {
      TargetKnown(a, x, i);
      TargetKnown(b, x, i);
      SeeMore(a.Keys, visited, visited + {ts[i]});
      RetypedEnterFrom(a, b, ts[i], 0, visited + {ts[i]});
      var mid := EnterFrom(a, ts[i], 0, visited + {ts[i]});
      SeeMore(a.Keys, visited, mid);
      RetypedEnterFrom(a, b, x, i + 1, mid);
    }
  }

  lemma {:induction false} RetypedEntered(a: Index, b: Index, starts: seq<string>, n: nat)
    requires Retyped(a, b) && Closed(a) && Closed(b) && StartsKnown(a, starts) && StartsKnown(b, starts)
    requires n <= |starts|
    ensures Entered(a, starts, n) == Entered(b, starts, n)
  {
    hide Closed, Retyped, EnterFrom;
    if n > 0 {
      RetypedEntered(a, b, starts, n - 1);
      RetypedEnterFrom(a, b, starts[n - 1], 0, Entered(a, starts, n - 1) + {starts[n - 1]});
    }
  }

  /** Every dead end that a run can come to is entered. */
  ghost predicate DeadEndsEntered(eles: Index, starts: seq<string>)
    requires Closed(eles) && StartsKnown(eles, starts)
  {
    forall v | v in eles && ScanTargets(eles, v) == [] && RunReached(eles, starts, v) ::
      v in Entered(eles, starts, |starts|)
  }

  /** For a process without faults, and whatever the types of its elements are changed to: acceptance is right, if and
      only if the scan enters every dead end that a run can come to. */
  lemma AcceptanceRightIffDeadEndsEntered(b: Index, starts: seq<string>)
    requires Closed(b) && Faultless(b) && StartsKnown(b, starts)
    ensures (forall a | Retyped(b, a) && Closed(a) && StartsKnown(a, starts) :: AcceptanceRight(a, starts))
            <==> DeadEndsEntered(b, starts)
  {
    hide Closed, Retyped, Faultless, Fault, AcceptanceRight, RunReached, StartsKnown, Entered;
    if DeadEndsEntered(b, starts) {
      forall a | Retyped(b, a) && Closed(a) && StartsKnown(a, starts)
        ensures AcceptanceRight(a, starts)
      {
        RightWhenEntered(a, b, starts);
      }
    } else {
      var v :| && v in b && ScanTargets(b, v) == [] && RunReached(b, starts, v)
               && v !in Entered(b, starts, |starts|);
      WrongWhenMissed(b, starts, v);
    }
  }

  /** The same with a condition on the flows, where they are decided. */
  lemma AcceptanceRightIffDeadEndsKept(b: Index, starts: seq<string>)
    requires Closed(b) && Faultless(b) && StartsKnown(b, starts) && Decided(b, starts)
    ensures (forall a | Retyped(b, a) && Closed(a) && StartsKnown(a, starts) :: AcceptanceRight(a, starts))
            <==> (forall v | v in b && ScanTargets(b, v) == [] && RunReached(b, starts, v) :: KeptReached(b, starts, v))
  {
    hide Closed, Retyped, Faultless, AcceptanceRight, RunReached, StartsKnown, Entered, Decided, KeptReached;
    AcceptanceRightIffDeadEndsEntered(b, starts);
    forall v
      ensures v in Entered(b, starts, |starts|) <==> KeptReached(b, starts, v)
    {
      EnteredIffKept(b, starts, v);
    }
  }

  lemma RetypedBack(a: Index, b: Index)
    requires Retyped(b, a)
    ensures Retyped(a, b)
  {
  }

  lemma FaultsAtDeadEnds(a: Index, b: Index, v: string)
    requires Retyped(a, b) && Faultless(b) && v in a && Fault(a, v).Some?
    ensures v in b && ScanTargets(b, v) == []
  {
    RetypedAt(a, b, v);
    assert Fault(b, v).None?;
  }

  lemma RightWhenEntered(a: Index, b: Index, starts: seq<string>)
    requires Retyped(b, a) && Closed(a) && Closed(b) && Faultless(b)
    requires StartsKnown(a, starts) && StartsKnown(b, starts) && DeadEndsEntered(b, starts)
    ensures AcceptanceRight(a, starts)
  {
    hide Closed, Retyped, Faultless, Fault, ScanStarts, Entered, RunReached, ScanTargets, StartsKnown;
    RetypedBack(a, b);
    AcceptsIffEnteredFaultless(a, starts);
    ReportsAreReachable(a, starts);
    RetypedEntered(a, b, starts, |starts|);
    forall v | v in a && RunReached(a, starts, v) && Fault(a, v).Some?
      ensures v in Entered(a, starts, |starts|)
    {
      RetypedRuns(a, b, starts, v);
      FaultsAtDeadEnds(a, b, v);
    }
  }

  /** The process in which one dead end is not an end event. */
  function Unended(b: Index, v: string): (a: Index)
    requires v in b
  {
    b[v := b[v].(typ := Other("task"))]
  }

  lemma UnendedFaultsThere(b: Index, v: string)
    requires Closed(b) && Faultless(b) && v in b && ScanTargets(b, v) == []
    ensures var a := Unended(b, v);
            && Retyped(b, a) && Closed(a) && Fault(a, v).Some? && forall u | u in a && u != v :: Fault(a, u).None?
  {
    var a := Unended(b, v);
    assert Fault(b, v).None?;
    assert Retyped(b, a);
    RetypedClosed(b, a);
    assert a[v].Targets() == [];
    forall u | u in a && u != v
      ensures Fault(a, u).None?
    {
      RetypedAt(b, a, u);
    }
  }

  lemma WrongWhenMissed(b: Index, starts: seq<string>, v: string)
    requires Closed(b) && Faultless(b) && StartsKnown(b, starts)
    requires v in b && ScanTargets(b, v) == [] && RunReached(b, starts, v) && v !in Entered(b, starts, |starts|)
    ensures var a := Unended(b, v);
            Retyped(b, a) && Closed(a) && StartsKnown(a, starts) && !AcceptanceRight(a, starts)
  {
    var a := Unended(b, v);
    UnendedFaultsThere(b, v);
    hide Closed, Retyped, Faultless, Fault, ScanStarts, Entered, RunReached, ScanTargets;
    AcceptsIffEnteredFaultless(a, starts);
    RetypedEntered(b, a, starts, |starts|);
    EnteredIsReached(b, starts);
    RetypedRuns(b, a, starts, v);
  }

  // ---- What the scan overlooks ----

  /** The process is accepted, yet a run can come to the dead end v. */
  ghost predicate Overlooks(eles: Index, starts: seq<string>, v: string) {
    && Closed(eles) && StartsKnown(eles, starts) && ScanStarts(eles, starts, |starts|).error.None?
    && v in eles && RunReached(eles, starts, v) && Fault(eles, v) == Some(MissingEndEvent(v))
  }

  lemma OverlooksOutside(eles: Index, starts: seq<string>, within: set<string>, w: seq<string>)
    requires Closed(eles) && StartsKnown(eles, starts)
    requires Entered(eles, starts, |starts|) <= within <= eles.Keys && forall v | v in within :: Fault(eles, v).None?
    requires RunWay(eles, w) && w[0] in starts && w[|w| - 1] in eles && Fault(eles, w[|w| - 1]).Some?
    requires !eles[w[|w| - 1]].typ.LinkThrow?
    ensures Overlooks(eles, starts, w[|w| - 1])
  {
    AcceptsIffEnteredFaultless(eles, starts);
    hide Closed, ScanStarts, Entered, RunWay;
  }

  predicate Is(eles: Index, x: string, typ: ElementType, targets: seq<string>) {
    x in eles && eles[x].id == x && eles[x].typ == typ && eles[x].Targets() == targets
  }

  // A loop back listed before the way on.

  const LOOPING: Index :=
    map["s" := Plain("s", StartEvent, "", ["a"]),
        "a" := Plain("a", Gateway, "", ["s", "b"]).(gateway := Some(GatewaySpec(Exclusive, Divergent, "", []))),
        "b" := Plain("b", Other("task"), "", [])]

  predicate Looping(eles: Index) {
    && eles.Keys == {"s", "a", "b"} && Is(eles, "s", StartEvent, ["a"]) && Is(eles, "a", Gateway, ["s", "b"])
    && Is(eles, "b", Other("task"), [])
  }

  lemma LoopingShape()
    ensures Looping(LOOPING)
  {
    hide Plain;
  }

  lemma LoopingIs(eles: Index)
    requires Looping(eles)
    ensures Closed(eles) && Fault(eles, "s").None? && Fault(eles, "a").None? && Fault(eles, "b").Some?
    ensures RunWay(eles, ["s", "a", "b"])
  {
  }

  lemma LoopingIsCut(eles: Index)
    requires Looping(eles)
    ensures |ScanTargets(eles, "a")| == 2
    ensures EnteredBefore(eles, ["s"], "a", 0) && OnlyBy(eles, ["s"], "a", 1, "b")
  {
    forall w | WayTo(eles, ["s"], w, "a")
      ensures "s" in w.els
    {
      assert w.els[0] == "s";
    }
    forall w | WayTo(eles, ["s"], w, "b")
      ensures exists n: nat :: UsesAt(w, "a", 1, n)
    {
      var n := |w.flows| - 1;
      StepAt(eles, ["s"], w, n);
      assert UsesAt(w, "a", 1, n);
    }
  }

  lemma StepAt(eles: Index, starts: seq<string>, w: Way, n: nat)
    requires IsWay(eles, starts, w) && n < |w.flows|
    ensures w.els[n] in eles && w.flows[n] < |ScanTargets(eles, w.els[n])|
    ensures ScanTargets(eles, w.els[n])[w.flows[n]] == w.els[n + 1]
  {
    hide ScanTargets;
  }

  /** A loop back listed before the way on hides a dead end. */
  lemma LoopBackHidesDeadEnd()
    ensures Overlooks(LOOPING, ["s"], "b")
  {
    hide Plain, Closed, ScanTargets, Fault, Entered, Reached, RunWay, Overlooks, EnteredBefore, OnlyBy;
    LoopingShape();
    LoopingIs(LOOPING);
    LoopingIsCut(LOOPING);
    LostBehind(LOOPING, ["s"], "a", 0, "b");
    EnteredKnown(LOOPING, ["s"]);
    OverlooksOutside(LOOPING, ["s"], {"s", "a"}, ["s", "a", "b"]);
  }

  lemma EnteredKnown(eles: Index, starts: seq<string>)
    requires Closed(eles) && StartsKnown(eles, starts)
    ensures Entered(eles, starts, |starts|) <= eles.Keys
  {
    hide Closed, Entered, ReachedFrom;
    EnteredIsReached(eles, starts);
  }

  // A link.

  const LINKED: Index :=
    map["s" := Plain("s", StartEvent, "", ["l"]),
        "l" := Plain("l", LinkThrow, "x", []),
        "c" := Plain("c", LinkCatch, "x", ["b"]),
        "b" := Plain("b", Other("task"), "", [])]

  predicate Linked(eles: Index) {
    && eles.Keys == {"s", "l", "c", "b"} && Is(eles, "s", StartEvent, ["l"]) && Is(eles, "l", LinkThrow, [])
    && Is(eles, "c", LinkCatch, ["b"]) && Is(eles, "b", Other("task"), []) && eles["l"].execute == eles["c"].execute
  }

  lemma LinkedShape()
    ensures Linked(LINKED)
  {
    hide Plain;
  }

  lemma LinkedIs(eles: Index)
    requires Linked(eles)
    ensures Closed(eles) && Within(eles, ["s"], {"s", "l"}) && RunWay(eles, ["s", "l", "c", "b"])
    ensures Fault(eles, "s").None? && Fault(eles, "l").None? && Fault(eles, "b").Some?
  {
    hide HasPartner;
    Partnered(eles, "l", "c");
  }

  lemma Partnered(eles: Index, x: string, y: string)
    requires x in eles && y in eles && y != x && eles[y].execute == eles[x].execute
    ensures HasPartner(eles, x)
  {
  }

  /** So does a link: from a throw the scan goes no further. */
  lemma LinkHidesDeadEnd()
    ensures Overlooks(LINKED, ["s"], "b")
  {
    hide Plain, Closed, ScanTargets, Fault, Entered, Within, RunWay, Overlooks;
    LinkedShape();
    LinkedIs(LINKED);
    EnteredWithin(LINKED, ["s"], {"s", "l"}, 1);
    OverlooksOutside(LINKED, ["s"], {"s", "l"}, ["s", "l", "c", "b"]);
  }

  // A caught error, or a timer.

  const CATCHING: Index :=
    map["s" := Plain("s", StartEvent, "", ["t"]),
        "t" := Plain("t", Other("task"), "", ["e"]).(errors := [CatchError("b", map[])]),
        "e" := Plain("e", EndEvent, "", []),
        "b" := Plain("b", Other("task"), "", [])]

  const TIMED: Index :=
    map["s" := Plain("s", StartEvent, "", ["t"]),
        "t" := Plain("t", Other("task"), "", ["e"]).(timers := [Timer("b")]),
        "e" := Plain("e", EndEvent, "", []),
        "b" := Plain("b", Other("task"), "", [])]

  predicate Leaving(eles: Index) {
    && eles.Keys == {"s", "t", "e", "b"} && Is(eles, "s", StartEvent, ["t"]) && Is(eles, "t", Other("task"), ["e"])
    && Is(eles, "e", EndEvent, []) && Is(eles, "b", Other("task"), []) && RunEdge(eles, "t", "b")
  }

  lemma CatchingShape()
    ensures Leaving(CATCHING)
  {
    hide Plain;
    assert CATCHING["t"].errors[0].target == "b";
  }

  lemma TimedShape()
    ensures Leaving(TIMED)
  {
    hide Plain;
    assert TIMED["t"].timers[0].target == "b";
  }

  lemma LeavingOverlooks(eles: Index)
    requires Leaving(eles)
    ensures Overlooks(eles, ["s"], "b")
  {
    LeavingIs(eles);
    hide Closed, ScanTargets, Fault, Entered, Within, RunWay, Overlooks, RunEdge;
    EnteredWithin(eles, ["s"], {"s", "t", "e"}, 1);
    OverlooksOutside(eles, ["s"], {"s", "t", "e"}, ["s", "t", "b"]);
  }

  lemma LeavingIs(eles: Index)
    requires Leaving(eles)
    ensures Closed(eles) && Within(eles, ["s"], {"s", "t", "e"}) && RunWay(eles, ["s", "t", "b"])
    ensures Fault(eles, "s").None? && Fault(eles, "t").None? && Fault(eles, "e").None? && Fault(eles, "b").Some?
  {
    assert RunEdge(eles, "s", "t");
    hide RunEdge;
  }

  /** And a caught error: the scan does not look at those. */
  lemma ErrorHidesDeadEnd()
    ensures Overlooks(CATCHING, ["s"], "b")
  {
    hide Plain, Overlooks, Leaving;
    CatchingShape();
    LeavingOverlooks(CATCHING);
  }

  /** And a timer on the boundary of an element. */
  lemma TimerHidesDeadEnd()
    ensures Overlooks(TIMED, ["s"], "b")
  {
    hide Plain, Overlooks, Leaving;
    TimedShape();
    LeavingOverlooks(TIMED);
  }

  // Two branches, of which the second leads first to where the first has led.

  const SHARED: Index :=
    map["s" := Plain("s", StartEvent, "", ["x"]),
        "x" := Plain("x", Gateway, "", ["a", "b"]).(gateway := Some(GatewaySpec(Exclusive, Divergent, "", []))),
        "a" := Plain("a", Other("task"), "", ["t"]),
        "b" := Plain("b", Gateway, "", ["t", "c"]).(gateway := Some(GatewaySpec(Exclusive, Divergent, "", []))),
        "t" := Plain("t", EndEvent, "", []),
        "c" := Plain("c", Other("task"), "", [])]

  predicate Shared(eles: Index) {
    && eles.Keys == {"s", "x", "a", "b", "t", "c"} && Is(eles, "s", StartEvent, ["x"])
      && Is(eles, "x", Gateway, ["a", "b"])
    && Is(eles, "a", Other("task"), ["t"]) && Is(eles, "b", Gateway, ["t", "c"]) && Is(eles, "t", EndEvent, [])
    && Is(eles, "c", Other("task"), [])
  }

  lemma SharedShape()
    ensures Shared(SHARED)
  {
    hide Plain;
  }

  lemma SharedIs(eles: Index)
    requires Shared(eles)
    ensures Closed(eles) && RunWay(eles, ["s", "x", "b", "c"])
    ensures forall v | v in {"s", "x", "a", "b", "t"} :: v in eles && Fault(eles, v).None?
    ensures Fault(eles, "c").Some? && eles["c"].typ == Other("task")
  {
  }

  lemma SharedPrivate(eles: Index)
    requires Shared(eles)
    ensures |ScanTargets(eles, "s")| == 1 && PrivateFlow(eles, ["s"], "s", 0)
    ensures |ScanTargets(eles, "x")| == 2 && PrivateFlow(eles, ["s"], "x", 1)
    ensures |ScanTargets(eles, "b")| == 2 && PrivateFlow(eles, ["s"], "b", 1)
  {
  }

  /** The one step that leads to y, when there is only one. */
  lemma LastStep(eles: Index, starts: seq<string>, w: Way, y: string, x: string, i: nat)
    requires WayTo(eles, starts, w, y) && x in eles && i < |ScanTargets(eles, x)| && PrivateFlow(eles, starts, x, i)
    requires ScanTargets(eles, x)[i] == y
    ensures |w.flows| > 0 && |w.els| == |w.flows| + 1 && w.els[|w.flows|] == y
    ensures w.els[|w.flows| - 1] == x && w.flows[|w.flows| - 1] == i
    ensures WayTo(eles, starts, Way(w.start, w.els[..|w.flows|], w.flows[..|w.flows| - 1]), x)
  {
    hide ScanTargets;
    var n := |w.flows| - 1;
    assert n >= 0 && w.els[n + 1] == y && ScanTargets(eles, w.els[n])[w.flows[n]] == y;
  }

  /** The only way to b. */
  lemma SharedWay(eles: Index, w: Way)
    requires Shared(eles) && WayTo(eles, ["s"], w, "b")
    ensures w.els == ["s", "x", "b"] && w.flows == [0, 1]
  {
    SharedPrivate(eles);
    assert ScanTargets(eles, "x")[1] == "b" && ScanTargets(eles, "s")[0] == "x";
    hide PrivateFlow, IsWay, ScanTargets;
    LastStep(eles, ["s"], w, "b", "x", 1);
    var u := Way(w.start, w.els[..|w.flows|], w.flows[..|w.flows| - 1]);
    LastStep(eles, ["s"], u, "x", "s", 0);
    var o := Way(u.start, u.els[..|u.flows|], u.flows[..|u.flows| - 1]);
    SharedStart(eles, o);
    assert u.els == o.els + ["x"] && u.flows == o.flows + [0] && w.els == u.els + ["b"] && w.flows == u.flows + [1];
  }

  /** No flow leads to the start event. */
  lemma SharedStart(eles: Index, w: Way)
    requires Shared(eles) && WayTo(eles, ["s"], w, "s")
    ensures w.els == ["s"] && w.flows == []
  {
    if |w.flows| > 0 {
      StepAt(eles, ["s"], w, |w.flows| - 1);
    }
  }

  lemma SharedSure(eles: Index, w: Way)
    requires Shared(eles) && WayTo(eles, ["s"], w, "b")
    ensures SureOn(eles, ["s"], w, "t")
  {
    SharedWay(eles, w);
    var q := ["a", "t"];
    assert ScanTargets(eles, "a") == ["t"] && ScanTargets(eles, "x") == ["a", "b"];
    hide ScanTargets, NotYet;
    assert Kept(eles, ["s"], "a", 0);
    assert KeptEdge(eles, ["s"], "a", "t");
    assert SureWalk(eles, ["s"], w.els, q);
    assert ScanTargets(eles, w.els[1])[0] == q[0];
    assert Behind(eles, ["s"], w, q[0]);
  }

  lemma SharedIsCut(eles: Index)
    requires Shared(eles)
    ensures |ScanTargets(eles, "b")| == 2 && EnteredBefore(eles, ["s"], "b", 0) && OnlyBy(eles, ["s"], "b", 1, "c")
  {
    assert ScanTargets(eles, "b") == ["t", "c"];
    SharedPrivate(eles);
    hide ScanTargets, SureOn, WayTo, OnlyBy;
    forall w | WayTo(eles, ["s"], w, "b")
      ensures SureOn(eles, ["s"], w, "t")
    {
      SharedSure(eles, w);
    }
    PrivateIsNotYet(eles, ["s"], "b", 1);
  }

  /** So does a flow to where an earlier branch has led, without any loop, link, error or timer. */
  lemma SharedTargetHidesDeadEnd()
    ensures Overlooks(SHARED, ["s"], "c")
  {
    hide Plain, Closed, ScanTargets, Fault, Entered, RunWay, Overlooks, EnteredBefore, OnlyBy;
    SharedShape();
    SharedIs(SHARED);
    SharedIsCut(SHARED);
    LostBehind(SHARED, ["s"], "b", 0, "c");
    EnteredKnown(SHARED, ["s"]);
    OverlooksOutside(SHARED, ["s"], {"s", "x", "a", "b", "t"}, ["s", "x", "b", "c"]);
  }

  // A task that may be left out: its early flow leads to an element that other flows lead to as well.

  predicate Optional(eles: Index) {
    && eles.Keys == {"s", "x", "a", "j"} && Is(eles, "s", StartEvent, ["x"]) && Is(eles, "x", Gateway, ["j", "a"])
    && Is(eles, "a", Other("task"), ["j"]) && Is(eles, "j", EndEvent, [])
  }

  /** Here no early flow can stop the scan, which enters all of it. */
  lemma OptionalTaskIsEntered(eles: Index, v: string)
    requires Optional(eles) && v in eles
    ensures Closed(eles) && EarlyFlowsFree(eles, ["s"])
    ensures ReachedFrom(eles, ["s"], v) ==> v in Entered(eles, ["s"], 1)
  {
    OptionalIs(eles);
    hide ScanTargets, Entered, ReachedFrom, NotYet, Closed, PrivateFlow;
    forall w | WayTo(eles, ["s"], w, "j")
      ensures exists n: nat :: UsesAt(w, "x", 0, n)
    {
      OptionalWay(eles, w);
    }
    OnlyByIsNotYet(eles, ["s"], "x", 0);
    if ReachedFrom(eles, ["s"], v) {
      EntersAllReached(eles, ["s"], v);
    }
  }

  lemma OnlyByIsNotYet(eles: Index, starts: seq<string>, x: string, i: nat)
    requires x in eles && i < |ScanTargets(eles, x)| && OnlyBy(eles, starts, x, i, ScanTargets(eles, x)[i])
    ensures NotYet(eles, starts, x, i)
  {
  }

  lemma OptionalIs(eles: Index)
    requires Optional(eles)
    ensures Closed(eles) && ScanTargets(eles, "s") == ["x"] && ScanTargets(eles, "x") == ["j", "a"]
    ensures ScanTargets(eles, "a") == ["j"] && ScanTargets(eles, "j") == [] && PrivateFlow(eles, ["s"], "x", 1)
  {
  }

  lemma OptionalWay(eles: Index, w: Way)
    requires Optional(eles) && WayTo(eles, ["s"], w, "j")
    ensures exists n: nat :: UsesAt(w, "x", 0, n)
  {
    OptionalIs(eles);
    var n := |w.flows| - 1;
    assert w.els[0] == "s";
    StepAt(eles, ["s"], w, n);
    if w.els[n] == "x" {
      assert UsesAt(w, "x", 0, n);
    } else {
      var u := Way(w.start, w.els[..n + 1], w.flows[..n]);
      LastStep(eles, ["s"], u, "a", "x", 1);
      assert UsesAt(w, "x", 0, n - 1);
    }
  }
}
