/** The directed scan that looks for a process path ending without an end event
    (common/linter/directed_scan.go, with the end-of-process rule of common/linter/linter.go). */
module Linter {
  import Elements
  import opened Graph
  import opened Model

  datatype ScanError = LinkToNowhere(id: string) | MissingEndEvent(id: string)

  datatype Outcome = Outcome(visited: set<string>, error: Option<ScanError>)

  /** Some other element carries the name the link throw refers to. */
  predicate HasPartner(eles: Index, x: string)
    requires x in eles
  {
    exists y :: y in eles && y != x && eles[y].execute == eles[x].execute
  }

  /** Where the scan goes from an element. A link throw leads it back to the throw itself. */
  function ScanTargets(eles: Index, x: string): (ts: seq<string>)
    requires x in eles
  {
    if eles[x].typ.LinkThrow? then [x] else eles[x].Targets()
  }

  function ScanGraph(eles: Index): (g: Graph)
    ensures g.Keys == eles.Keys
  {
    map x | x in eles :: ScanTargets(eles, x)
  }

  predicate FlowsClosed(eles: Index) {
    forall x, t | x in eles && t in ScanTargets(eles, x) :: t in eles
  }

  predicate Closed(eles: Index) {
    IdsMatch(eles) && FlowsClosed(eles)
  }

  predicate IsEnd(e: Element) {
    e.typ.EndEvent? || e.typ.CompensateEndEvent?
  }

  /** What is wrong with an element itself. */
  function Fault(eles: Index, x: string): (error: Option<ScanError>)
    requires x in eles
  {
    if eles[x].typ.LinkThrow? then (if HasPartner(eles, x) then None else Some(LinkToNowhere(x)))
    else if eles[x].Targets() == [] && !IsEnd(eles[x]) then Some(MissingEndEvent(x))
    else None
  }

  /** A link throw is at fault when no other element carries its name, any other element when it has no flow out and is
      no end event. */
  lemma FaultIs(eles: Index, x: string)
    requires x in eles
    ensures Fault(eles, x) == Some(LinkToNowhere(x)) <==>
            eles[x].typ.LinkThrow? && forall y | y in eles && y != x :: eles[y].execute != eles[x].execute
    ensures Fault(eles, x) == Some(MissingEndEvent(x)) <==>
            && !eles[x].typ.LinkThrow? && (eles[x].outbound.None? || eles[x].outbound.value == [])
            && eles[x].typ != EndEvent && eles[x].typ != CompensateEndEvent
    ensures Fault(eles, x).Some? ==> Fault(eles, x).value in {LinkToNowhere(x), MissingEndEvent(x)}
  {
  }

  // ---- The scan as a function ----

  function ScanFrom(eles: Index, x: string, i: nat, visited: set<string>): (r: Outcome)
    requires Closed(eles) && x in eles && i <= |ScanTargets(eles, x)|
    ensures visited <= r.visited
    decreases |eles.Keys - visited|, |ScanTargets(eles, x)| - i
  {
    var ts := ScanTargets(eles, x);
    if i == |ts| || ts[i] in visited then Outcome(visited, None)
    else
      SeeMore(eles.Keys, visited, visited + {ts[i]});
      var r := Visit(eles, ts[i], visited + {ts[i]});
      if r.error.Some? then r
      else
        SeeMore(eles.Keys, visited, r.visited);
        ScanFrom(eles, x, i + 1, r.visited)
  }

  function Visit(eles: Index, x: string, visited: set<string>): (r: Outcome)
    requires Closed(eles) && x in eles
    ensures visited <= r.visited
    decreases |eles.Keys - visited|, |ScanTargets(eles, x)| + 1
  {
    if Fault(eles, x).Some? then Outcome(visited, Fault(eles, x)) else ScanFrom(eles, x, 0, visited)
  }

  lemma SeeMore(all: set<string>, a: set<string>, b: set<string>)
    requires a <= b
    ensures |all - b| <= |all - a|
    ensures (exists x :: x in all && x !in a && x in b) ==> |all - b| < |all - a|
  {
    SubsetSize(all - b, all - a);
    if x :| x in all && x !in a && x in b {
      SubsetSize(all - b, all - a - {x});
    }
  }

  class Scanner {
    const index: Index
    var visited: set<string>

    constructor (index: Index)
      ensures this.index == index && visited == {}
    {
      this.index := index;
      visited := {};
    }

    method DirectedColouredTraverse(el: string) returns (error: Option<ScanError>)
      requires Closed(index) && el in index && el in visited
      modifies this`visited
      ensures Outcome(visited, error) == Visit(index, el, old(visited))
      decreases |index.Keys - visited|
    {
      hide Closed, ScanTargets, Fault;
      var targets;
      error, targets := CheckElement(el);
      if error.Some? {
        return;
      }
      for i := 0 to |targets|
        invariant old(visited) <= visited
        invariant ScanFrom(index, el, i, visited) == ScanFrom(index, el, 0, old(visited))
      {
        TargetKnown(index, el, i);
        if targets[i] in visited {
          return None;
        }
        SeeMore(index.Keys, old(visited), visited + {targets[i]});
        visited := visited + {targets[i]};
        error := DirectedColouredTraverse(targets[i]);
        if error.Some? {
          return;
        }
      }
      return None;
    }

    method CheckElement(el: string) returns (error: Option<ScanError>, targets: seq<string>)
      requires el in index
      ensures error == Fault(index, el) && targets == ScanTargets(index, el)
      ensures if index[el].typ == LinkThrow then targets == [el]
              else if index[el].outbound.None? then targets == []
              else && |targets| == |index[el].outbound.value|
                   && forall i | 0 <= i < |targets| :: targets[i] == index[el].outbound.value[i].target
    {
      targets := [];
      error := None;
      if index[el].typ == LinkThrow {
        targets := [el];
        var found := false;
        var todo := index.Keys;
        while todo != {}
          invariant todo <= index.Keys
          invariant found <==> exists y :: y in index.Keys - todo && y != el && index[y].execute == index[el].execute
        {
          var srch :| srch in todo;
          todo := todo - {srch};
          if srch != el && index[srch].execute == index[el].execute {
            found := true;
          }
        }
        if !found {
          error := Some(LinkToNowhere(el));
        }
      } else {
        if index[el].outbound.Some? {
          targets := TargetIds(index[el].outbound.value);
        }
        if |targets| == 0 && index[el].typ != EndEvent && index[el].typ != CompensateEndEvent {
          error := Some(MissingEndEvent(el));
        }
      }
    }

    method ScanAll(starts: seq<string>) returns (error: Option<ScanError>)
      requires Closed(index) && StartsKnown(index, starts) && visited == {}
      modifies this`visited
      ensures Outcome(visited, error) == ScanStarts(index, starts, |starts|)
    {
      hide Closed, Visit;
      for i := 0 to |starts|
        invariant Outcome(visited, None) == ScanStarts(index, starts, i)
      {
        visited := visited + {starts[i]};
        error := DirectedColouredTraverse(starts[i]);
        if error.Some? {
          StopsAtFirstError(index, starts, i + 1, |starts|);
          return;
        }
      }
      return None;
    }
  }

  lemma TargetKnown(eles: Index, x: string, i: nat)
    requires Closed(eles) && x in eles && i < |ScanTargets(eles, x)|
    ensures ScanTargets(eles, x)[i] in eles
  {
  }

  /** The scan from the first n start events. */
  function ScanStarts(eles: Index, starts: seq<string>, n: nat): (r: Outcome)
    requires Closed(eles) && n <= |starts| && forall s | s in starts :: s in eles
  {
    if n == 0 then Outcome({}, None)
    else
      var r := ScanStarts(eles, starts, n - 1);
      if r.error.Some? then r else Visit(eles, starts[n - 1], r.visited + {starts[n - 1]})
  }

  lemma {:induction false} StopsAtFirstError(eles: Index, starts: seq<string>, m: nat, n: nat)
    requires Closed(eles) && m <= n <= |starts| && (forall s | s in starts :: s in eles)
    requires ScanStarts(eles, starts, m).error.Some?
    ensures ScanStarts(eles, starts, n) == ScanStarts(eles, starts, m)
  {
    hide Closed, Visit;
    if m < n {
      StopsAtFirstError(eles, starts, m, n - 1);
    }
  }

  predicate IsStart(e: Element) {
    e.typ in {StartEvent, TimedStartEvent}
  }

  /** The start events, in document order. */
  function StartEvents(elements: seq<Element>): (starts: seq<Element>) {
    if elements == [] then []
    else StartEvents(elements[..|elements| - 1])
         + if IsStart(elements[|elements| - 1]) then [elements[|elements| - 1]] else []
  }

  function StartIds(elements: seq<Element>): (ids: seq<string>) {
    Ids(StartEvents(elements))
  }

  function Ids(elements: seq<Element>): (ids: seq<string>)
    ensures |ids| == |elements| && forall i | 0 <= i < |ids| :: ids[i] == elements[i].id
  {
    seq(|elements|, i requires 0 <= i < |elements| => elements[i].id)
  }

  method FindProcessStarts(elements: seq<Element>) returns (starts: seq<Element>)
    ensures starts == StartEvents(elements)
  {
    starts := [];
    for i := 0 to |elements|
      invariant starts == StartEvents(elements[..i])
    {
      assert elements[..i + 1][..i] == elements[..i];
      if elements[i].typ == StartEvent || elements[i].typ == TimedStartEvent {
        starts := starts + [elements[i]];
      }
    }
    assert elements[..|elements|] == elements;
  }

  /** The start events found are those of the process, none left out and none twice, in the order they stand in. */
  lemma {:induction false} StartEventsAre(elements: seq<Element>, x: Element)
    ensures x in StartEvents(elements) <==> x in elements && (x.typ == StartEvent || x.typ == TimedStartEvent)
    ensures multiset(StartEvents(elements))[x] == if IsStart(x) then multiset(elements)[x] else 0
  {
    if elements != [] {
      var n := |elements| - 1;
      StartEventsAre(elements[..n], x);
      assert elements == elements[..n] + [elements[n]];
    }
  }

  function IndexOfProcess(elements: seq<Element>): Index {
    Elements.Enter(Elements.Flatten(elements), map[])
  }

  /** The index has the start events themselves under their ids, which are unique in a process definition. */
  predicate StartsUnambiguous(elements: seq<Element>) {
    forall e | e in elements && IsStart(e) && e.id in IndexOfProcess(elements) :: IndexOfProcess(elements)[e.id] == e
  }

  /** The whole scan of a process: it accepts if and only if nothing that it enters is at fault, and otherwise reports
      the fault of an element that it enters. */
  method StartDirectedScan(elements: seq<Element>) returns (error: Option<ScanError>)
    requires FlowsClosed(IndexOfProcess(elements)) && StartsUnambiguous(elements)
    ensures Closed(IndexOfProcess(elements)) && StartsKnown(IndexOfProcess(elements), StartIds(elements))
    ensures var index, starts := IndexOfProcess(elements), StartIds(elements);
            && (error.None? <==> forall v | v in Entered(index, starts, |starts|) ::
              v in index && Fault(index, v).None?)
            && (error.Some? ==> && error.value.id in Entered(index, starts, |starts|) && error.value.id in index
                                && Fault(index, error.value.id) == error)
    ensures var index, starts := IndexOfProcess(elements), StartIds(elements);
            forall x | x in Entered(index, starts, |starts|) && x in index ::
              && (index[x].typ.LinkThrow? && (forall y | y in index && y != x :: index[y].execute != index[x].execute)
                  ==> error.Some?)
              && (&& !index[x].typ.LinkThrow? && (index[x].outbound.None? || index[x].outbound.value == [])
                  && index[x].typ != EndEvent && index[x].typ != CompensateEndEvent
                  ==> error.Some?)
  {
    hide Fault, Entered, StartEvents;
    var starts := FindProcessStarts(elements);
    var index := Elements.IndexProcessElements(elements, map[]);
    Elements.IndexedUnderOwnId(Elements.Flatten(elements));
    assert Closed(index);
    hide Closed;
    StartsIndexed(elements);
    var scanner := new Scanner(index);
    error := scanner.ScanAll(Ids(starts));
    AcceptsIffEnteredFaultless(index, StartIds(elements));
    forall x | x in index {
      FaultIs(index, x);
    }
  }

  predicate StartsKnown(eles: Index, starts: seq<string>) {
    forall s | s in starts :: s in eles
  }

  lemma StartsIndexed(elements: seq<Element>)
    ensures StartsKnown(IndexOfProcess(elements), StartIds(elements))
  {
    hide StartEvents;
    var starts := StartEvents(elements);
    forall x | x in StartIds(elements)
      ensures x in IndexOfProcess(elements)
    {
      var k :| 0 <= k < |starts| && starts[k].id == x;
      StartEventsAre(elements, starts[k]);
      var i :| 0 <= i < |elements| && elements[i] == starts[k];
      Elements.TopLevelIsIndexed(elements, i);
    }
  }

  // ---- What the scan enters, faults aside ----

  function EnterFrom(eles: Index, x: string, i: nat, visited: set<string>): (after: set<string>)
    requires Closed(eles) && x in eles && i <= |ScanTargets(eles, x)|
    ensures visited <= after
    decreases |eles.Keys - visited|, |ScanTargets(eles, x)| - i
  {
    var ts := ScanTargets(eles, x);
    if i == |ts| || ts[i] in visited then visited
    else
      SeeMore(eles.Keys, visited, visited + {ts[i]});
      var mid := EnterFrom(eles, ts[i], 0, visited + {ts[i]});
      SeeMore(eles.Keys, visited, mid);
      EnterFrom(eles, x, i + 1, mid)
  }

  function Entered(eles: Index, starts: seq<string>, n: nat): (entered: set<string>)
    requires Closed(eles) && n <= |starts| && StartsKnown(eles, starts)
  {
    if n == 0 then {} else EnterFrom(eles, starts[n - 1], 0, Entered(eles, starts, n - 1) + {starts[n - 1]})
  }

  /** A scan that began with `base` entered and the elements entered faults aside: they agree unless the scan has met a
      fault, and that is one of an element entered. */
  predicate Agrees(eles: Index, base: set<string>, r: Outcome, after: set<string>) {
    && r.visited <= after
    && (r.error.None? ==> r.visited == after && forall v | v in after - base :: v in eles && Fault(eles, v).None?)
    && (r.error.Some? ==> && r.error.value.id in after - base && r.error.value.id in eles
                          && Fault(eles, r.error.value.id) == r.error)
  }

  lemma {:induction false} ScanFromAgrees(eles: Index, x: string, i: nat, visited: set<string>)
    requires Closed(eles) && x in eles && i <= |ScanTargets(eles, x)|
    ensures Agrees(eles, visited, ScanFrom(eles, x, i, visited), EnterFrom(eles, x, i, visited))
    decreases |eles.Keys - visited|, |ScanTargets(eles, x)| - i
  {
    hide Closed, Fault, ScanTargets, Visit;
    var ts := ScanTargets(eles, x);
    if i < |ts| && ts[i] !in visited {
      TargetKnown(eles, x, i);
      SeeMore(eles.Keys, visited, visited + {ts[i]});
      VisitAgrees(eles, ts[i], visited + {ts[i]});
      assert visited + {ts[i]} - {ts[i]} == visited;
      var r := Visit(eles, ts[i], visited + {ts[i]});
      if r.error.None? {
        SeeMore(eles.Keys, visited, r.visited);
        ScanFromAgrees(eles, x, i + 1, r.visited);
      }
    }
  }

  lemma {:induction false} VisitAgrees(eles: Index, x: string, visited: set<string>)
    requires Closed(eles) && x in eles && x in visited
    ensures Agrees(eles, visited - {x}, Visit(eles, x, visited), EnterFrom(eles, x, 0, visited))
    decreases |eles.Keys - visited|, |ScanTargets(eles, x)| + 1
  {
    FaultIsOwn(eles, x);
    hide Closed, Fault, ScanTargets, ScanFrom, EnterFrom;
    ScanFromAgrees(eles, x, 0, visited);
  }

  lemma FaultIsOwn(eles: Index, x: string)
    requires x in eles
    ensures Fault(eles, x).Some? ==> Fault(eles, x).value.id == x
  {
  }

  lemma {:induction false} ScanStartsAgrees(eles: Index, starts: seq<string>, n: nat)
    requires Closed(eles) && StartsKnown(eles, starts) && n <= |starts|
    ensures Agrees(eles, {}, ScanStarts(eles, starts, n), Entered(eles, starts, n))
  {
    hide Closed, Fault, Visit, EnterFrom;
    if n > 0 {
      ScanStartsAgrees(eles, starts, n - 1);
      var r, s := ScanStarts(eles, starts, n - 1), starts[n - 1];
      if r.error.None? {
        VisitAgrees(eles, s, r.visited + {s});
      }
    }
  }

  /** On every graph: a process is accepted if and only if no element that the scan enters is at fault, where what it
      enters is a matter of the flows alone; and what is reported is such a fault. */
  lemma AcceptsIffEnteredFaultless(eles: Index, starts: seq<string>)
    requires Closed(eles) && StartsKnown(eles, starts)
    ensures var r, entered := ScanStarts(eles, starts, |starts|), Entered(eles, starts, |starts|);
            && (r.error.None? <==> forall v | v in entered :: v in eles && Fault(eles, v).None?)
            && (r.error.Some? ==> && r.error.value.id in entered && r.error.value.id in eles
                                  && Fault(eles, r.error.value.id) == r.error)
  {
    hide Closed, Fault, ScanStarts, Entered;
    ScanStartsAgrees(eles, starts, |starts|);
  }

  // ---- Only what is reachable is entered ----

  /** Elements that flows do not lead out of. */
  predicate Within(eles: Index, starts: seq<string>, within: set<string>) {
    && within <= eles.Keys && (forall s | s in starts :: s in within)
    && forall x, t | x in within && t in ScanTargets(eles, x) :: t in within
  }

  lemma {:induction false} EnterFromWithin(eles: Index, starts: seq<string>, within: set<string>, x: string, i: nat,
                                           visited: set<string>)
    requires Closed(eles) && Within(eles, starts, within) && x in within && x in eles && i <= |ScanTargets(eles, x)|
    requires visited <= within
    ensures EnterFrom(eles, x, i, visited) <= within
    decreases |eles.Keys - visited|, |ScanTargets(eles, x)| - i
  {
    hide Closed, ScanTargets;
    var ts := ScanTargets(eles, x);
    if i < |ts| && ts[i] !in visited {
      TargetKnown(eles, x, i);
      SeeMore(eles.Keys, visited, visited + {ts[i]});
      EnterFromWithin(eles, starts, within, ts[i], 0, visited + {ts[i]});
      var mid := EnterFrom(eles, ts[i], 0, visited + {ts[i]});
      SeeMore(eles.Keys, visited, mid);
      EnterFromWithin(eles, starts, within, x, i + 1, mid);
    }
  }

  lemma {:induction false} EnteredWithin(eles: Index, starts: seq<string>, within: set<string>, n: nat)
    requires Closed(eles) && StartsKnown(eles, starts) && Within(eles, starts, within) && n <= |starts|
    ensures Entered(eles, starts, n) <= within
  {
    hide Closed, ScanTargets, EnterFrom;
    if n > 0 {
      EnteredWithin(eles, starts, within, n - 1);
      EnterFromWithin(eles, starts, within, starts[n - 1], 0, Entered(eles, starts, n - 1) + {starts[n - 1]});
    }
  }

  /** A start event leads to v along flows of the scan. */
  ghost predicate ReachedFrom(eles: Index, starts: seq<string>, v: string) {
    exists s :: s in starts && Reaches(ScanGraph(eles), s, v)
  }

  ghost function Reached(eles: Index, starts: seq<string>): set<string> {
    set v | v in eles && ReachedFrom(eles, starts, v)
  }

  lemma ReachedFurther(eles: Index, starts: seq<string>, x: string, t: string)
    requires Closed(eles) && x in eles && t in ScanTargets(eles, x) && ReachedFrom(eles, starts, x)
    ensures t in eles && ReachedFrom(eles, starts, t)
  {
    var g := ScanGraph(eles);
    assert Edge(g, x, t);
    hide Reaches, ScanTargets, ScanGraph;
    var s :| s in starts && Reaches(g, s, x);
    ReachesEdge(g, s, x, t);
  }

  lemma ReachedIsWithin(eles: Index, starts: seq<string>)
    requires Closed(eles) && StartsKnown(eles, starts)
    ensures Within(eles, starts, Reached(eles, starts))
  {
    hide Closed, ScanTargets, Reaches, ScanGraph;
    forall s | s in starts
      ensures ReachedFrom(eles, starts, s)
    {
      ReachesSelf(ScanGraph(eles), s);
    }
    forall x, t | x in Reached(eles, starts) && t in ScanTargets(eles, x)
      ensures t in Reached(eles, starts)
    {
      ReachedFurther(eles, starts, x, t);
    }
  }

  lemma EnteredIsReached(eles: Index, starts: seq<string>)
    requires Closed(eles) && StartsKnown(eles, starts)
    ensures Entered(eles, starts, |starts|) <= Reached(eles, starts)
  {
    hide Closed, Entered, Within, Reached;
    ReachedIsWithin(eles, starts);
    EnteredWithin(eles, starts, Reached(eles, starts), |starts|);
  }
}
