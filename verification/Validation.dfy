/** The check that no element reads a variable that may be undefined when it runs
    (client/parser/validation.go). */
module Validation {
  import opened Graph
  import opened Model
  import Decimal
  import Elements
  import Transforms

  /** A process as the check sees it: its index, the order in which the index is gone through, and the
      expression engine's answer to "which variables does this expression read" (None: not an expression). */
  datatype Definition = Definition(eles: Index, order: seq<string>, vars: string -> Option<seq<string>>)

  // ---- What an element sets, reads and leads to ----

  predicate IsCatchFor(d: Definition, x: string, execute: string) {
    x in d.eles && d.eles[x].typ.LinkCatch? && d.eles[x].execute == execute
  }

  /** The last link catch with this name among the first n in the order the index is gone through. */
  function CatchFor(d: Definition, execute: string, n: nat): (c: Option<string>)
    requires n <= |d.order|
    ensures c.Some? ==> IsCatchFor(d, c.value, execute)
    ensures c.None? ==> forall i | 0 <= i < n :: !IsCatchFor(d, d.order[i], execute)
    ensures c.Some? ==> exists i :: 0 <= i < n && d.order[i] == c.value
                                    && forall j | i < j < n :: !IsCatchFor(d, d.order[j], execute)
  {
    if n == 0 then None
    else if IsCatchFor(d, d.order[n - 1], execute) then Some(d.order[n - 1])
    else CatchFor(d, execute, n - 1)
  }

  function ErrorTargets(errors: seq<CatchError>): (ts: seq<string>)
    ensures |ts| == |errors| && forall i | 0 <= i < |ts| :: ts[i] == errors[i].target
  {
    seq(|errors|, i requires 0 <= i < |errors| => errors[i].target)
  }

  function LinkTargets(d: Definition, e: Element): (ts: seq<string>)
  {
    if !e.typ.LinkThrow? then []
    else match CatchFor(d, e.execute, |d.order|)
      case None => []
      case Some(c) => [c]
  }

  /** Where the check goes on from an element: caught errors, then flows, then the link. Nowhere from an end event.
      Timers on the boundary of an element are not followed. */
  function Outs(d: Definition, e: Element): (ts: seq<string>)
  {
    if e.typ.EndEvent? then [] else ErrorTargets(e.errors) + e.Targets() + LinkTargets(d, e)
  }

  function ErrorOutputs(errors: seq<CatchError>): (vars: set<string>) {
    set i, v | 0 <= i < |errors| && v in errors[i].outputTransform :: v
  }

  predicate IsParallelJoin(e: Element) {
    e.IsJoin() && e.gateway.value.kind.Parallel?
  }

  ghost predicate WellFormed(d: Definition) {
    && IdsMatch(d.eles)
    && (forall x :: x in d.order <==> x in d.eles)
    && (forall x | x in d.eles :: d.eles[x].typ.Gateway? ==> d.eles[x].gateway.Some?)
    && (forall x, t | x in d.eles && t in Outs(d, d.eles[x]) :: t in d.eles)
  }

  ghost predicate PairsWalkable(d: Definition)
    requires WellFormed(d)
  {
    Transforms.PairsWalkable(d.eles, Transforms.Pairs(d.eles, d.order))
  }

  /** If x leads to a parallel join, the walks of all split-join pairs end: that is where they are made. */
  ghost predicate JoinsReady(d: Definition, x: string)
    requires WellFormed(d)
  {
    (exists y :: y in d.eles && Reaches(FlowGraph(d), x, y) && IsParallelJoin(d.eles[y])) ==> PairsWalkable(d)
  }

  lemma JoinReadyHere(d: Definition, x: string)
    requires WellFormed(d) && JoinsReady(d, x) && x in d.eles
    ensures IsParallelJoin(d.eles[x]) ==> PairsWalkable(d)
  {
    hide WellFormed, PairsWalkable;
    ReachesSelf(FlowGraph(d), x);
  }

  lemma JoinsReadyBeyond(d: Definition, x: string, t: string)
    requires WellFormed(d) && JoinsReady(d, x) && x in d.eles && t in Outs(d, d.eles[x]) && t in d.eles
    ensures JoinsReady(d, t)
  {
    hide WellFormed, PairsWalkable, Outs, Reaches;
    var g := FlowGraph(d);
    assert Edge(g, x, t);
    if y :| y in d.eles && Reaches(g, t, y) && IsParallelJoin(d.eles[y]) {
      EdgeReaches(g, x, t, y);
    }
  }

  /** The variables that are set once an element has been passed. */
  ghost function Gen(d: Definition, x: string): (vars: set<string>)
    requires WellFormed(d) && x in d.eles
  {
    var e := d.eles[x];
    if e.typ.EndEvent? then {}
    else e.outputTransform.Keys + ErrorOutputs(e.errors) + JoinOutputs(d, x)
  }

  ghost function JoinOutputs(d: Definition, x: string): (vars: set<string>)
    requires WellFormed(d) && x in d.eles
  {
    if IsParallelJoin(d.eles[x]) && PairsWalkable(d) then
      Transforms.MergedOutputs(d.eles, Transforms.Pairs(d.eles, d.order))
    else {}
  }

  function Conditions(ts: seq<Target>): (exprs: set<string>) {
    set i, c | 0 <= i < |ts| && c in ts[i].conditions :: c
  }

  function Exprs(e: Element): (exprs: set<string>) {
    e.inputTransform.Values + (if e.outbound.Some? then Conditions(e.outbound.value) else {})
  }

  ghost function VarsOf(d: Definition, exprs: set<string>): (vars: set<string>) {
    set x, v | x in exprs && d.vars(x).Some? && v in d.vars(x).value :: v
  }

  /** The variables an element reads in its inputs and in the conditions on its flows. */
  ghost function Reads(d: Definition, x: string): (vars: set<string>)
    requires x in d.eles
  {
    if d.eles[x].typ.EndEvent? then {} else VarsOf(d, Exprs(d.eles[x]))
  }

  /** An element the check cannot make sense of: an unreadable expression or a link leading nowhere. */
  ghost predicate Broken(d: Definition, x: string)
    requires x in d.eles
  {
    var e := d.eles[x];
    && !e.typ.EndEvent?
    && ((exists c :: c in Exprs(e) && d.vars(c).None?)
        || (e.typ.LinkThrow? && CatchFor(d, e.execute, |d.order|).None?))
  }

  // ---- The same, in terms of what stands in the definition ----

  /** What an element reads are the variables of its input expressions and of the conditions on its flows. */
  lemma ReadsAre(d: Definition, x: string, v: string)
    requires x in d.eles
    ensures v in Reads(d, x) <==>
            && d.eles[x].typ != EndEvent
            && exists c :: && StandsIn(d.eles[x], c) && d.vars(c).Some? && v in d.vars(c).value
  {
    hide StandsIn;
    forall c
      ensures c in Exprs(d.eles[x]) <==> StandsIn(d.eles[x], c)
    {
      StandsInIff(d.eles[x], c);
    }
    hide Exprs;
  }

  /** The expression is that of an input, or a condition on a flow. */
  ghost predicate StandsIn(e: Element, c: string) {
    || (exists k :: k in e.inputTransform && e.inputTransform[k] == c)
    || (e.outbound.Some? && exists i :: 0 <= i < |e.outbound.value| && c in e.outbound.value[i].conditions)
  }

  lemma StandsInIff(e: Element, c: string)
    ensures c in Exprs(e) <==> StandsIn(e, c)
  {
  }

  /** The check fails on an element with an expression it cannot read, or on a link throw without a link catch. */
  lemma BrokenIs(d: Definition, x: string)
    requires WellFormed(d) && x in d.eles
    ensures Broken(d, x) <==>
            && d.eles[x].typ != EndEvent
            && (|| (exists c :: StandsIn(d.eles[x], c) && d.vars(c).None?)
                || (d.eles[x].typ == LinkThrow
                    && forall y | y in d.eles && d.eles[y].typ == LinkCatch :: d.eles[y].execute != d.eles[x].execute))
  {
    hide StandsIn;
    var e := d.eles[x];
    forall c
      ensures c in Exprs(e) <==> StandsIn(e, c)
    {
      StandsInIff(e, c);
    }
    hide Exprs;
    if CatchFor(d, e.execute, |d.order|).None? {
      forall y | y in d.eles && d.eles[y].typ == LinkCatch
        ensures d.eles[y].execute != e.execute
      {
        var i :| 0 <= i < |d.order| && d.order[i] == y;
        assert !IsCatchFor(d, d.order[i], e.execute);
      }
    }
  }

  /** What an element sets are its outputs, those of the errors caught on it and, at a parallel join, the outputs of all
      that the walks of the split-join pairs come by. */
  lemma GenAre(d: Definition, x: string, v: string)
    requires WellFormed(d) && x in d.eles && (IsParallelJoin(d.eles[x]) ==> PairsWalkable(d))
    ensures v in Gen(d, x) <==>
            && d.eles[x].typ != EndEvent
            && (|| v in d.eles[x].outputTransform
                || (exists i :: 0 <= i < |d.eles[x].errors| && v in d.eles[x].errors[i].outputTransform)
                || (d.eles[x].IsJoin() && d.eles[x].gateway.value.kind == Parallel && SetInSomePair(d, v)))
  {
    hide WellFormed, Transforms.OutputVisited, PairsWalkable, SetInSomePair;
    JoinOutputsAre(d, x, v);
    ErrorOutputsAre(d.eles[x].errors, v);
    hide ErrorOutputs, JoinOutputs;
  }

  /** The walk of some split-join pair comes by an element that sets the variable. */
  ghost predicate SetInSomePair(d: Definition, v: string)
    requires WellFormed(d)
  {
    var pairs := Transforms.Pairs(d.eles, d.order);
    exists s :: s in pairs && Transforms.OutputVisited(d.eles, s, pairs[s], v)
  }

  lemma JoinOutputsAre(d: Definition, x: string, v: string)
    requires WellFormed(d) && x in d.eles && (IsParallelJoin(d.eles[x]) ==> PairsWalkable(d))
    ensures v in JoinOutputs(d, x) <==> IsParallelJoin(d.eles[x]) && SetInSomePair(d, v)
  {
    hide WellFormed, Transforms.Pairs, Transforms.OutputVisited, Transforms.MergedOutputs, Transforms.PairsWalkable;
    if IsParallelJoin(d.eles[x]) {
      PairsOf(d);
      Transforms.MergedAreVisited(d.eles, Transforms.Pairs(d.eles, d.order), v);
    }
  }

  lemma ErrorOutputsAre(errors: seq<CatchError>, v: string)
    ensures v in ErrorOutputs(errors) <==> exists i :: 0 <= i < |errors| && v in errors[i].outputTransform
  {
  }

  lemma PairsOf(d: Definition)
    requires WellFormed(d)
    ensures forall y | y in d.order :: y in d.eles
  {
  }

  /** An element leads to the targets of the errors caught on it and of its flows, and a link throw to the last link
      catch with its name. */
  lemma OutsAre(d: Definition, x: string, y: string)
    requires WellFormed(d) && x in d.eles
    ensures Edge(FlowGraph(d), x, y) <==>
            && d.eles[x].typ != EndEvent
            && (CaughtBy(d.eles[x], y) || FlowsTo(d.eles[x], y) || LinkedTo(d, d.eles[x], y))
  {
    var e := d.eles[x];
    LinkIs(d, e, y);
    CaughtIs(e, y);
    FlowsToIs(e, y);
    hide LinkTargets, CaughtBy, FlowsTo, LinkedTo, ErrorTargets, TargetIds;
    assert y in Outs(d, e) ==> y in d.eles;
  }

  predicate CaughtBy(e: Element, y: string) {
    exists i :: 0 <= i < |e.errors| && e.errors[i].target == y
  }

  predicate FlowsTo(e: Element, y: string) {
    e.outbound.Some? && exists i :: 0 <= i < |e.outbound.value| && e.outbound.value[i].target == y
  }

  predicate LinkedTo(d: Definition, e: Element, y: string) {
    e.typ == LinkThrow && exists i :: 0 <= i < |d.order| && LastCatch(d, i, e.execute) && d.order[i] == y
  }

  lemma CaughtIs(e: Element, y: string)
    ensures CaughtBy(e, y) <==> y in ErrorTargets(e.errors)
  {
    var ts := ErrorTargets(e.errors);
    if i :| 0 <= i < |e.errors| && e.errors[i].target == y {
      assert ts[i] == y;
    }
  }

  lemma FlowsToIs(e: Element, y: string)
    ensures FlowsTo(e, y) <==> y in e.Targets()
  {
    var ts := e.Targets();
    if e.outbound.Some? {
      if i :| 0 <= i < |e.outbound.value| && e.outbound.value[i].target == y {
        assert ts[i] == y;
      }
    }
  }

  /** The last link catch with this name in the order the index is gone through. */
  predicate LastCatch(d: Definition, i: nat, execute: string) {
    && i < |d.order| && IsCatchFor(d, d.order[i], execute)
    && forall j | i < j < |d.order| :: !IsCatchFor(d, d.order[j], execute)
  }

  lemma LinkIs(d: Definition, e: Element, y: string)
    ensures y in LinkTargets(d, e) <==> LinkedTo(d, e, y)
  {
    var c := CatchFor(d, e.execute, |d.order|);
    if c.Some? {
      var i :| 0 <= i < |d.order| && d.order[i] == c.value
               && forall j | i < j < |d.order| :: !IsCatchFor(d, d.order[j], e.execute);
      assert LastCatch(d, i, e.execute);
    }
  }

  function FlowGraph(d: Definition): (g: Graph)
    ensures g.Keys == d.eles.Keys
  {
    map x | x in d.eles :: Outs(d, d.eles[x])
  }

  /** The variables set along a walk, its last element included. */
  ghost function Defs(d: Definition, w: seq<string>): (vars: set<string>)
    requires WellFormed(d) && forall i | 0 <= i < |w| :: w[i] in d.eles
  {
    set i, v | 0 <= i < |w| && v in Gen(d, w[i]) :: v
  }

  // ---- The traversal ----

  /** What the traversal comes by from x, with the variables known there: `known` holds on arrival at x,
      `seen` are the elements on the branch so far. */
  ghost function Visits(d: Definition, x: string, known: set<string>, seen: set<string>)
      : (vs: set<(string, set<string>)>)
    requires WellFormed(d) && x in d.eles && x !in seen
    decreases |d.eles.Keys - seen|, 0, 0
  {
    SeeOne(d.eles.Keys, seen, x);
    {(x, known + Gen(d, x))} + VisitsAll(d, Outs(d, d.eles[x]), known + Gen(d, x), seen + {x})
  }

  ghost function VisitsAll(d: Definition, outs: seq<string>, known: set<string>, seen: set<string>)
      : (vs: set<(string, set<string>)>)
    requires WellFormed(d) && forall t | t in outs :: t in d.eles
    decreases |d.eles.Keys - seen|, 1, |outs|
  {
    if outs == [] then {}
    else
      var t := outs[|outs| - 1];
      VisitsAll(d, outs[..|outs| - 1], known, seen) + (if t in seen then {} else Visits(d, t, known, seen))
  }

  lemma SeeOne(all: set<string>, seen: set<string>, x: string)
    requires x in all && x !in seen
    ensures |all - (seen + {x})| < |all - seen|
  {
    assert all - (seen + {x}) == (all - seen) - {x};
  }

  /** The report entries that follow from what the traversal came by. */
  ghost function Undefined(d: Definition, vs: set<(string, set<string>)>): (entries: set<(string, string)>) {
    set q, v | q in vs && q.0 in d.eles && v in Reads(d, q.0) && v !in q.1 :: (q.0, v)
  }

  ghost predicate NoneBroken(d: Definition, vs: set<(string, set<string>)>)
  {
    forall q | q in vs && q.0 in d.eles :: !Broken(d, q.0)
  }

  function Reported(report: map<string, set<string>>): (entries: set<(string, string)>) {
    set x, v | x in report && v in report[x] :: (x, v)
  }

  function Listed(vars: seq<string>): set<string> {
    set v | v in vars
  }

  /** The entries for the variables that an element reads and that are not known. */
  ghost function Entries(x: string, vars: set<string>, known: set<string>): (entries: set<(string, string)>) {
    set v | v in vars && v !in known :: (x, v)
  }

  lemma EntriesJoin(x: string, a: set<string>, b: set<string>, known: set<string>)
    ensures Entries(x, a + b, known) == Entries(x, a, known) + Entries(x, b, known)
    ensures Entries(x, {}, known) == {}
  {
  }

  datatype BranchContext = BranchContext(branchOutputVars: set<string>, visited: set<string>)

  datatype CheckError = BadExpression | NoLinkCatch

  /** The contexts that a branch may touch: its own and those of the branches it forks into. */
  predicate Within(k: string, branchId: string) {
    k == branchId || branchId + "-" <= k
  }

  lemma WithinFork(k: string, branchId: string, idx: nat)
    requires Within(k, branchId + "-" + Decimal.Itoa(idx))
    ensures Within(k, branchId) && k != branchId
  {
    var fork := branchId + "-" + Decimal.Itoa(idx);
    assert branchId + "-" <= fork;
    if k != fork {
      assert fork <= k;
    }
  }

  lemma ForkIdLength(k: string, branchId: string, u: string, v: string)
    requires Within(k, branchId + "-" + u) && branchId + "-" + v <= k && Decimal.AllDigits(v)
    ensures |v| <= |u|
  {
    var n := |branchId + "-"|;
    assert |k| > n + |u| ==> k[n + |u|] == '-';
    assert |v| > |u| ==> (branchId + "-" + v)[n + |u|] == v[|u|];
    assert |v| > |u| ==> k[n + |u|] == v[|u|];
    assert !Decimal.IsDigit('-');
  }

  lemma WithinStartsWith(k: string, prefix: string, u: string)
    requires Within(k, prefix + u)
    ensures prefix + u <= k && u == k[|prefix|..|prefix| + |u|]
  {
    assert u == (prefix + u)[|prefix|..];
  }

  /** Sibling branches share no context, so neither changes what the other knows. */
  lemma SiblingsApart(k: string, branchId: string, i: nat, j: nat)
    requires Within(k, branchId + "-" + Decimal.Itoa(i)) && Within(k, branchId + "-" + Decimal.Itoa(j))
    ensures i == j
  {
    hide Decimal.Itoa;
    var u, v := Decimal.Itoa(i), Decimal.Itoa(j);
    WithinStartsWith(k, branchId + "-", u);
    WithinStartsWith(k, branchId + "-", v);
    ForkIdLength(k, branchId, u, v);
    ForkIdLength(k, branchId, v, u);
    Decimal.ItoaInjective(i, j);
  }

  class Checker {
    const d: Definition
    var branchContexts: map<string, BranchContext>
    var report: map<string, set<string>>

    constructor (d: Definition)
      ensures this.d == d && branchContexts == map[] && report == map[]
    {
      this.d := d;
      branchContexts, report := map[], map[];
    }

    ghost predicate Valid()
      reads this
    {
      WellFormed(d) && forall x | x in report :: report[x] != {}
    }

    /** Reports the variables of one expression that are not known. */
    method CheckUndefinedVarReference(eleId: string, expr: string,
                                      outputVars: set<string>) returns (err: Option<CheckError>)
      requires Valid()
      modifies this`report
      ensures Valid()
      ensures err.Some? <==> d.vars(expr).None?
      ensures err.None? ==>
                Reported(report) == old(Reported(report)) + Entries(eleId, Listed(d.vars(expr).value), outputVars)
    {
      hide WellFormed;
      var answer := d.vars(expr);
      if answer.None? {
        return Some(BadExpression);
      }
      var vars := answer.value;
      for i := 0 to |vars|
        invariant Valid()
        invariant Reported(report) == old(Reported(report)) + Entries(eleId, Listed(vars[..i]), outputVars)
      {
        assert vars[..i + 1] == vars[..i] + [vars[i]];
        if vars[i] !in outputVars {
          var undefinedVars := if eleId in report then report[eleId] else {};
          AddEntry(report, eleId, undefinedVars, vars[i]);
          report := report[eleId := undefinedVars + {vars[i]}];
        }
      }
      assert vars[..|vars|] == vars;
      return None;
    }

    method ParallelJoinOutputs(eleId: string) returns (merged: set<string>)
      requires Valid() && eleId in d.eles && (IsParallelJoin(d.eles[eleId]) ==> PairsWalkable(d))
      ensures merged == JoinOutputs(d, eleId)
    {
      merged := {};
      var ele := d.eles[eleId];
      if ele.typ == Gateway && ele.gateway.value.direction == Convergent && ele.gateway.value.kind == Parallel {
        merged := Transforms.MergeConvergentOutputs(d.eles, d.order);
      }
    }

    method ErrorOutputVars(errors: seq<CatchError>) returns (vars: set<string>)
      ensures vars == ErrorOutputs(errors)
    {
      vars := {};
      for i := 0 to |errors|
        invariant vars == ErrorOutputs(errors[..i])
      {
        ErrorOutputsStep(errors, i);
        vars := vars + errors[i].outputTransform.Keys;
      }
      assert errors[..|errors|] == errors;
    }

    /** Enters what an element sets into the context of the branch. */
    method AddOutputs(eleId: string, branchId: string)
      requires Valid() && eleId in d.eles && branchId in branchContexts && !d.eles[eleId].typ.EndEvent?
      requires IsParallelJoin(d.eles[eleId]) ==> PairsWalkable(d)
      modifies this`branchContexts
      ensures branchContexts == old(branchContexts)[branchId :=
                BranchContext(old(branchContexts)[branchId].branchOutputVars
                  + Gen(d, eleId), old(branchContexts)[branchId].visited)]
    {
      hide WellFormed, JoinOutputs, PairsWalkable, ErrorOutputs;
      var ele := d.eles[eleId];
      var bContext := branchContexts[branchId];
      var outputVars := bContext.branchOutputVars + ele.outputTransform.Keys;
      var merged := ParallelJoinOutputs(eleId);
      var caught := ErrorOutputVars(ele.errors);
      outputVars := outputVars + merged + caught;
      assert outputVars == bContext.branchOutputVars + Gen(d, eleId);
      branchContexts := branchContexts[branchId := bContext.(branchOutputVars := outputVars)];
    }

    /** Checks one after another a set of expressions of an element. */
    method CheckAll(eleId: string, exprs: set<string>, outputVars: set<string>) returns (err: Option<CheckError>)
      requires Valid()
      modifies this`report
      ensures Valid()
      ensures err.Some? <==> exists c :: c in exprs && d.vars(c).None?
      ensures err.None? ==>
                Reported(report) == old(Reported(report)) + Entries(eleId, VarsOf(d, exprs), outputVars)
    {
      hide WellFormed, Reported, Entries, VarsOf, Listed;
      err := None;
      var todo := exprs;
      assert exprs - todo == {};
      NoVars(d);
      EntriesJoin(eleId, {}, {}, outputVars);
      while todo != {}
        invariant Valid() && todo <= exprs && err.None?
        invariant forall c | c in exprs - todo :: d.vars(c).Some?
        invariant Reported(report) == old(Reported(report)) + Entries(eleId, VarsOf(d, exprs - todo), outputVars)
      {
        var c :| c in todo;
        err := CheckUndefinedVarReference(eleId, c, outputVars);
        if err.Some? {
          return;
        }
        ghost var done := exprs - todo;
        VarsOfStep(d, done, c);
        EntriesJoin(eleId, VarsOf(d, done), Listed(d.vars(c).value), outputVars);
        todo := todo - {c};
        assert exprs - todo == done + {c};
      }
      assert exprs - todo == exprs;
    }

    method FindLinkCatch(ele: Element) returns (linkCatch: Option<string>)
      requires Valid()
      ensures linkCatch == CatchFor(d, ele.execute, |d.order|)
    {
      hide WellFormed;
      linkCatch := None;
      for i := 0 to |d.order|
        invariant linkCatch == CatchFor(d, ele.execute, i)
      {
        OrderIndexed(d, i);
        var e := d.eles[d.order[i]];
        if e.typ == LinkCatch && ele.execute == e.execute {
          linkCatch := Some(e.id);
        }
      }
    }

    /** Follows one branch through an element and all that lies beyond it. `path` is the way from the start
        event to the element: the context of the branch holds exactly its elements and what they set. */
    method FindElementsReferencingUndefinedVars(eleId: string, branchId: string, ghost path: seq<string>)
        returns (err: Option<CheckError>)
      requires Valid() && eleId in d.eles && branchId in branchContexts && JoinsReady(d, eleId)
      requires IsWalk(FlowGraph(d), path + [eleId]) && Simple(path + [eleId])
      requires forall i | 0 <= i < |path| :: path[i] in d.eles
      requires branchContexts[branchId] == BranchContext(Defs(d, path), Elems(path)) && eleId !in Elems(path)
      modifies this
      ensures Valid()
      ensures forall k | k in old(branchContexts) ::
                k in branchContexts && (!Within(k, branchId) ==> branchContexts[k] == old(branchContexts)[k])
      ensures err.None? <==> NoneBroken(d, Visits(d, eleId, Defs(d, path), Elems(path)))
      ensures err.None? ==>
                Reported(report) == old(Reported(report)) + Undefined(d, Visits(d, eleId, Defs(d, path), Elems(path)))
      decreases |d.eles.Keys - Elems(path)|, 1
    {
      hide WellFormed, JoinsReady, PairsWalkable, Reported, FlowGraph, IsWalk, Simple, Gen, Defs, Outs, VisitsAll,
        Undefined,
        NoneBroken, Broken, Exprs, Visits;
      ghost var known, seen := Defs(d, path), Elems(path);
      VisitsParts(d, eleId, known, seen);
      if d.eles[eleId].typ == EndEvent {
        NoReadsAtEnd(d, eleId);
        VisitsAllNone(d, known + Gen(d, eleId), seen + {eleId});
        return None;
      }
      JoinReadyHere(d, eleId);
      AddOutputs(eleId, branchId);
      var outbounds;
      err, outbounds := CheckElement(eleId, branchContexts[branchId].branchOutputVars);
      if err.None? {
        err := VisitOutbounds(eleId, branchId, outbounds, path);
      }
    }

    method ErrorOutbounds(errors: seq<CatchError>) returns (outbounds: seq<string>)
      ensures outbounds == ErrorTargets(errors)
    {
      outbounds := [];
      for i := 0 to |errors|
        invariant outbounds == ErrorTargets(errors[..i])
      {
        outbounds := outbounds + [errors[i].target];
      }
      assert errors[..|errors|] == errors;
    }

    /** Checks the conditions on the flows of an element and gathers where the flows lead to. */
    method CheckFlows(eleId: string, ts: seq<Target>, outputVars: set<string>)
        returns (err: Option<CheckError>, targets: seq<string>)
      requires Valid()
      modifies this`report
      ensures Valid()
      ensures err.Some? <==> exists c :: c in Conditions(ts) && d.vars(c).None?
      ensures err.None? ==> targets == TargetIds(ts)
      ensures err.None? ==>
                Reported(report) == old(Reported(report)) + Entries(eleId, VarsOf(d, Conditions(ts)), outputVars)
    {
      hide WellFormed, Reported, VarsOf, Conditions;
      err, targets := None, [];
      NoConditions(d);
      for i := 0 to |ts|
        invariant Valid() && err.None? && targets == TargetIds(ts[..i])
        invariant forall c | c in Conditions(ts[..i]) :: d.vars(c).Some?
        invariant Reported(report) == old(Reported(report))
                                      + Entries(eleId, VarsOf(d, Conditions(ts[..i])), outputVars)
      {
        var conditions := set c | c in ts[i].conditions;
        ConditionsStep(d, ts, i);
        err := CheckAll(eleId, conditions, outputVars);
        if err.Some? {
          ConditionsInclude(ts, i);
          return;
        }
        targets := targets + [ts[i].target];
      }
      assert ts[..|ts|] == ts;
    }

    /** Checks the reads of one element and gathers where it leads to. */
    method CheckElement(eleId: string, outputVars: set<string>)
        returns (err: Option<CheckError>, outbounds: seq<string>)
      requires Valid() && eleId in d.eles && !d.eles[eleId].typ.EndEvent?
      modifies this`report
      ensures Valid()
      ensures err.Some? <==> Broken(d, eleId)
      ensures err.None? ==> outbounds == Outs(d, d.eles[eleId])
      ensures err.None? ==>
                Reported(report) == old(Reported(report)) + Entries(eleId, Reads(d, eleId), outputVars)
    {
      hide WellFormed, Reported, Conditions, VarsOf, ErrorTargets, CatchFor;
      var ele := d.eles[eleId];
      ReadsParts(d, eleId);
      outbounds := ErrorOutbounds(ele.errors);
      err := CheckAll(eleId, ele.inputTransform.Values, outputVars);
      if err.Some? {
        return;
      }
      if ele.outbound.Some? {
        var targets;
        err, targets := CheckFlows(eleId, ele.outbound.value, outputVars);
        if err.Some? {
          return;
        }
        outbounds := outbounds + targets;
      }
      if ele.typ == LinkThrow {
        var linkCatch := FindLinkCatch(ele);
        if linkCatch.None? {
          return Some(NoLinkCatch), [];
        }
        outbounds := outbounds + [linkCatch.value];
      }
    }

    /** Goes on along every way out of an element, forking the branch when there is more than one. */
    method VisitOutbounds(eleId: string, branchId: string, outbounds: seq<string>, ghost path: seq<string>)
        returns (err: Option<CheckError>)
      requires Valid() && eleId in d.eles && branchId in branchContexts && JoinsReady(d, eleId)
      requires IsWalk(FlowGraph(d), path + [eleId]) && Simple(path + [eleId])
      requires forall i | 0 <= i < |path| :: path[i] in d.eles
      requires outbounds == Outs(d, d.eles[eleId]) && forall t | t in outbounds :: t in d.eles
      requires branchContexts[branchId] == BranchContext(Defs(d, path) + Gen(d, eleId), Elems(path))
      requires eleId !in Elems(path)
      modifies this
      ensures Valid()
      ensures forall k | k in old(branchContexts) ::
                k in branchContexts && (!Within(k, branchId) ==> branchContexts[k] == old(branchContexts)[k])
      ensures var vs := VisitsAll(d, outbounds, Defs(d, path) + Gen(d, eleId), Elems(path) + {eleId});
              && (err.None? <==> NoneBroken(d, vs))
              && (err.None? ==> Reported(report) == old(Reported(report)) + Undefined(d, vs))
      decreases |d.eles.Keys - Elems(path)|, 0, 1
    {
      hide WellFormed, JoinsReady, Reported, FlowGraph, IsWalk, Simple, Gen, Defs, Outs, VisitsAll, Undefined,
        NoneBroken, Visits,
        Elems, Within;
      ghost var known, seen := Defs(d, path) + Gen(d, eleId), Elems(path) + {eleId};
      VisitsAllNone(d, known, seen);
      var isNewBranch := |outbounds| > 1;
      err := None;
      for idx := 0 to |outbounds|
        invariant Valid() && branchId in branchContexts && err.None?
        invariant isNewBranch || idx == 0 ==>
                    branchContexts[branchId] == BranchContext(known, if idx == 0 then Elems(path) else seen)
        invariant forall k | k in old(branchContexts) ::
                    k in branchContexts && (!Within(k, branchId) ==> branchContexts[k] == old(branchContexts)[k])
        invariant NoneBroken(d, VisitsAll(d, outbounds[..idx], known, seen))
        invariant Reported(report) == old(Reported(report)) + Undefined(d, VisitsAll(d, outbounds[..idx], known, seen))
      {
        VisitsAllStep(d, outbounds, idx, known, seen);
        err := VisitOutbound(eleId, branchId, idx, isNewBranch, outbounds[idx], path);
        if err.Some? {
          VisitsAllBroken(d, outbounds, idx, known, seen);
          return;
        }
      }
      assert outbounds[..|outbounds|] == outbounds;
    }

    method VisitOutbound(eleId: string, branchId: string, idx: nat, isNewBranch: bool, target: string,
                         ghost path: seq<string>)
        returns (err: Option<CheckError>)
      requires Valid() && eleId in d.eles && branchId in branchContexts && JoinsReady(d, eleId)
      requires IsWalk(FlowGraph(d), path + [eleId]) && Simple(path + [eleId])
      requires forall i | 0 <= i < |path| :: path[i] in d.eles
      requires target in Outs(d, d.eles[eleId]) && target in d.eles && eleId !in Elems(path)
      requires branchContexts[branchId].branchOutputVars == Defs(d, path) + Gen(d, eleId)
      requires branchContexts[branchId].visited + {eleId} == Elems(path) + {eleId}
      modifies this
      ensures Valid()
      ensures forall k | k in old(branchContexts) ::
                k in branchContexts && (!Within(k, branchId) ==> branchContexts[k] == old(branchContexts)[k])
      ensures isNewBranch ==>
                branchContexts[branchId] == BranchContext(Defs(d, path) + Gen(d, eleId), Elems(path) + {eleId})
      ensures target in Elems(path) + {eleId} ==> err.None? && report == old(report)
      ensures target !in Elems(path) + {eleId} ==>
                var vs := Visits(d, target, Defs(d, path) + Gen(d, eleId), Elems(path) + {eleId});
                && (err.None? <==> NoneBroken(d, vs))
                && (err.None? ==> Reported(report) == old(Reported(report)) + Undefined(d, vs))
      decreases |d.eles.Keys - Elems(path)|, 0, 0
    {
      hide WellFormed, JoinsReady, Reported, FlowGraph, IsWalk, Simple, Gen, Defs, Outs, Undefined, NoneBroken, Visits,
        Elems, Within;
      PathStep(d, path, eleId);
      SeeOne(d.eles.Keys, Elems(path), eleId);
      WithinSelf(branchId, idx);
      err := None;
      var bCon := branchContexts[branchId];
      bCon := bCon.(visited := bCon.visited + {eleId});
      branchContexts := branchContexts[branchId := bCon];
      var newBranchId := branchId;
      if isNewBranch {
        newBranchId := branchId + "-" + Decimal.Itoa(idx);
        branchContexts := branchContexts[newBranchId := BranchContext(bCon.branchOutputVars, bCon.visited)];
      }
      if target !in bCon.visited {
        PathEdge(d, path, eleId, target);
        JoinsReadyBeyond(d, eleId, target);
        ForkKeeps(branchId, newBranchId, idx);
        err := FindElementsReferencingUndefinedVars(target, newBranchId, path + [eleId]);
      }
    }
  }

  lemma WithinSelf(branchId: string, idx: nat)
    ensures Within(branchId, branchId) && Within(branchId + "-" + Decimal.Itoa(idx), branchId)
    ensures branchId + "-" + Decimal.Itoa(idx) != branchId
  {
    assert branchId + "-" <= branchId + "-" + Decimal.Itoa(idx);
  }

  lemma ForkKeeps(branchId: string, newBranchId: string, idx: nat)
    requires newBranchId == branchId || newBranchId == branchId + "-" + Decimal.Itoa(idx)
    ensures forall k | Within(k, newBranchId) :: Within(k, branchId)
    ensures newBranchId != branchId ==> !Within(branchId, newBranchId)
  {
    forall k | Within(k, newBranchId)
      ensures Within(k, branchId) && (newBranchId != branchId ==> k != branchId)
    {
      if newBranchId != branchId {
        WithinFork(k, branchId, idx);
      }
    }
  }

  lemma ReadsParts(d: Definition, x: string)
    requires x in d.eles && d.eles[x].typ != EndEvent
    ensures var e := d.eles[x];
            Reads(d, x) == VarsOf(d, e.inputTransform.Values)
                         + (if e.outbound.Some? then VarsOf(d, Conditions(e.outbound.value)) else {})
  {
    hide Conditions;
  }

  lemma NoConditions(d: Definition)
    ensures Conditions([]) == {} == VarsOf(d, Conditions([]))
  {
  }

  lemma ConditionsStep(d: Definition, ts: seq<Target>, i: nat)
    requires i < |ts|
    ensures var conditions := set c | c in ts[i].conditions;
            && Conditions(ts[..i + 1]) == Conditions(ts[..i]) + conditions
            && VarsOf(d, Conditions(ts[..i + 1])) == VarsOf(d, Conditions(ts[..i])) + VarsOf(d, conditions)
  {
    var a, b, conditions := ts[..i], ts[..i + 1], set c | c in ts[i].conditions;
    assert forall j | 0 <= j < i :: a[j] == b[j];
    assert b[i] == ts[i];
    forall c
      ensures c in Conditions(b) <==> c in Conditions(a) || c in conditions
    {
      if c in Conditions(a) {
        var j :| 0 <= j < |a| && c in a[j].conditions;
        assert c in b[j].conditions;
      }
      if c in Conditions(b) {
        var j :| 0 <= j < |b| && c in b[j].conditions;
        assert j < i ==> c in a[j].conditions;
      }
    }
    assert Conditions(b) == Conditions(a) + conditions;
    hide Conditions;
    assert VarsOf(d, Conditions(a) + conditions) == VarsOf(d, Conditions(a)) + VarsOf(d, conditions);
  }

  lemma ConditionsInclude(ts: seq<Target>, i: nat)
    requires i < |ts|
    ensures forall c | c in ts[i].conditions :: c in Conditions(ts)
  {
  }

  lemma ErrorOutputsStep(errors: seq<CatchError>, i: nat)
    requires i < |errors|
    ensures ErrorOutputs(errors[..i + 1]) == ErrorOutputs(errors[..i]) + errors[i].outputTransform.Keys
  {
    var a, b := errors[..i], errors[..i + 1];
    assert b == a + [errors[i]];
    forall v | v in ErrorOutputs(b)
      ensures v in ErrorOutputs(a) + errors[i].outputTransform.Keys
    {
      var j :| 0 <= j < |b| && v in b[j].outputTransform;
      assert j < i ==> a[j] == b[j];
    }
    forall v | v in ErrorOutputs(a)
      ensures v in ErrorOutputs(b)
    {
      var j :| 0 <= j < |a| && v in a[j].outputTransform;
      assert b[j] == a[j];
    }
    assert b[i] == errors[i];
  }

  lemma NoVars(d: Definition)
    ensures VarsOf(d, {}) == {}
  {
  }

  lemma VarsOfStep(d: Definition, exprs: set<string>, c: string)
    requires d.vars(c).Some?
    ensures VarsOf(d, exprs + {c}) == VarsOf(d, exprs) + Listed(d.vars(c).value)
  {
  }

  /** The way to an element, extended by it, carries what the branch knows beyond it. */
  lemma PathStep(d: Definition, path: seq<string>, x: string)
    requires WellFormed(d) && x in d.eles && forall i | 0 <= i < |path| :: path[i] in d.eles
    ensures forall i | 0 <= i < |path + [x]| :: (path + [x])[i] in d.eles
    ensures Defs(d, path + [x]) == Defs(d, path) + Gen(d, x)
    ensures Elems(path + [x]) == Elems(path) + {x}
  {
    hide WellFormed, Gen;
    var p := path + [x];
    assert p[|path|] == x && forall i | 0 <= i < |path| :: p[i] == path[i];
    forall v | v in Defs(d, path)
      ensures v in Defs(d, p)
    {
      var i :| 0 <= i < |path| && v in Gen(d, path[i]);
      assert v in Gen(d, p[i]);
    }
    assert forall v | v in Gen(d, x) :: v in Gen(d, p[|path|]);
  }

  lemma PathEdge(d: Definition, path: seq<string>, x: string, t: string)
    requires WellFormed(d) && x in d.eles && t in Outs(d, d.eles[x]) && t in d.eles && t !in Elems(path) + {x}
    requires IsWalk(FlowGraph(d), path + [x]) && Simple(path + [x])
    ensures IsWalk(FlowGraph(d), path + [x] + [t]) && Simple(path + [x] + [t]) && t !in Elems(path + [x])
  {
    hide Outs, WellFormed;
    var p := path + [x];
    assert forall i | 0 <= i < |path| :: p[i] == path[i] && p[i] in Elems(path);
    ConcatWalks(FlowGraph(d), p, [t]);
  }

  lemma VisitsAllNone(d: Definition, known: set<string>, seen: set<string>)
    requires WellFormed(d)
    ensures NoneBroken(d, VisitsAll(d, [], known, seen)) && Undefined(d, VisitsAll(d, [], known, seen)) == {}
  {
  }

  lemma UndefinedUnion(d: Definition, a: set<(string, set<string>)>, b: set<(string, set<string>)>)
    ensures Undefined(d, a + b) == Undefined(d, a) + Undefined(d, b)
  {
  }

  lemma VisitsAllStep(d: Definition, outs: seq<string>, i: nat, known: set<string>, seen: set<string>)
    requires WellFormed(d) && (forall t | t in outs :: t in d.eles) && i < |outs|
    ensures outs[i] in seen ==> VisitsAll(d, outs[..i + 1], known, seen) == VisitsAll(d, outs[..i], known, seen)
    ensures outs[i] !in seen ==>
              var a, b := VisitsAll(d, outs[..i], known, seen), Visits(d, outs[i], known, seen);
              && Undefined(d, VisitsAll(d, outs[..i + 1], known, seen)) == Undefined(d, a) + Undefined(d, b)
              && (NoneBroken(d, VisitsAll(d, outs[..i + 1], known, seen)) <==> NoneBroken(d, a) && NoneBroken(d, b))
  {
    hide WellFormed, Undefined, Visits;
    assert outs[..i + 1][..i] == outs[..i];
    if outs[i] !in seen {
      UndefinedUnion(d, VisitsAll(d, outs[..i], known, seen), Visits(d, outs[i], known, seen));
    }
  }

  lemma {:induction false} VisitsAllGrows(d: Definition, outs: seq<string>, i: nat, known: set<string>,
                                          seen: set<string>)
    requires WellFormed(d) && (forall t | t in outs :: t in d.eles) && i <= |outs|
    ensures VisitsAll(d, outs[..i], known, seen) <= VisitsAll(d, outs, known, seen)
  {
    hide WellFormed, Visits;
    if i < |outs| {
      var n := |outs| - 1;
      VisitsAllGrows(d, outs[..n], i, known, seen);
      assert outs[..n][..i] == outs[..i];
    } else {
      assert outs[..i] == outs;
    }
  }

  lemma VisitsAllBroken(d: Definition, outs: seq<string>, i: nat, known: set<string>, seen: set<string>)
    requires WellFormed(d) && (forall t | t in outs :: t in d.eles) && i < |outs| && outs[i] !in seen
    requires !NoneBroken(d, Visits(d, outs[i], known, seen))
    ensures !NoneBroken(d, VisitsAll(d, outs, known, seen))
  {
    hide WellFormed, Visits;
    VisitsAllStep(d, outs, i, known, seen);
    VisitsAllGrows(d, outs, i + 1, known, seen);
  }

  lemma OrderIndexed(d: Definition, i: nat)
    requires WellFormed(d) && i < |d.order|
    ensures d.order[i] in d.eles && d.eles[d.order[i]].id == d.order[i]
  {
  }

  lemma OutsClosed(d: Definition, x: string)
    requires WellFormed(d) && x in d.eles
    ensures forall t | t in Outs(d, d.eles[x]) :: t in d.eles
  {
  }

  lemma NoReadsAtEnd(d: Definition, x: string)
    requires WellFormed(d) && x in d.eles && d.eles[x].typ.EndEvent?
    ensures Reads(d, x) == {} && !Broken(d, x) && Outs(d, d.eles[x]) == []
  {
  }

  /** The report on an element and all beyond it, in its parts. */
  lemma VisitsParts(d: Definition, x: string, known: set<string>, seen: set<string>)
    requires WellFormed(d) && x in d.eles && x !in seen
    ensures forall t | t in Outs(d, d.eles[x]) :: t in d.eles
    ensures var rest := VisitsAll(d, Outs(d, d.eles[x]), known + Gen(d, x), seen + {x});
            && Undefined(d, Visits(d, x, known, seen))
               == (set v | v in Reads(d, x) && v !in known + Gen(d, x) :: (x, v)) + Undefined(d, rest)
            && (NoneBroken(d, Visits(d, x, known, seen)) <==> !Broken(d, x) && NoneBroken(d, rest))
  {
    hide Gen, Outs, Reads, Broken, VisitsAll;
    OutsClosed(d, x);
    var first := {(x, known + Gen(d, x))};
    UndefinedUnion(d, first, VisitsAll(d, Outs(d, d.eles[x]), known + Gen(d, x), seen + {x}));
    assert Undefined(d, first) == set v | v in Reads(d, x) && v !in known + Gen(d, x) :: (x, v);
  }

  lemma AddEntry(report: map<string, set<string>>, x: string, vars: set<string>, v: string)
    requires vars == if x in report then report[x] else {}
    ensures Reported(report[x := vars + {v}]) == Reported(report) + {(x, v)}
  {
  }

  // ---- What the report means ----

  /** A way from x to f that repeats no element and keeps off those already seen. */
  ghost predicate BranchPath(d: Definition, q: seq<string>, x: string, f: string, seen: set<string>) {
    WalkBetween(FlowGraph(d), q, x, f) && Simple(q) && Elems(q) !! seen
  }

  lemma {:induction false} VisitsAllMember(d: Definition, outs: seq<string>, known: set<string>, seen: set<string>,
                                           q: (string, set<string>)) returns (t: string)
    requires WellFormed(d) && (forall t | t in outs :: t in d.eles) && q in VisitsAll(d, outs, known, seen)
    ensures t in outs && t !in seen && q in Visits(d, t, known, seen)
  {
    hide WellFormed, Visits;
    t := outs[|outs| - 1];
    if t in seen || q !in Visits(d, t, known, seen) {
      t := VisitsAllMember(d, outs[..|outs| - 1], known, seen, q);
    }
  }

  /** The traversal comes by an element along a simple way only, knowing what is set along it. */
  lemma {:induction false} VisitsSound(d: Definition, x: string, known: set<string>, seen: set<string>,
                                       f: string, at: set<string>) returns (q: seq<string>)
    requires WellFormed(d) && x in d.eles && x !in seen && (f, at) in Visits(d, x, known, seen)
    ensures BranchPath(d, q, x, f, seen) && (forall i | 0 <= i < |q| :: q[i] in d.eles) && at == known + Defs(d, q)
    decreases |d.eles.Keys - seen|
  {
    hide WellFormed, Gen, Outs, VisitsAll, Defs, BranchPath;
    if f == x && at == known + Gen(d, x) {
      q := [x];
      assert q == [x] + [];
      BranchPathHere(d, x, seen);
      DefsFirst(d, x, []);
    } else {
      OutsClosed(d, x);
      SeeOne(d.eles.Keys, seen, x);
      var t := VisitsAllMember(d, Outs(d, d.eles[x]), known + Gen(d, x), seen + {x}, (f, at));
      var rest := VisitsSound(d, t, known + Gen(d, x), seen + {x}, f, at);
      q := [x] + rest;
      BranchPathFirst(d, x, t, rest, f, seen);
      DefsFirst(d, x, rest);
      assert known + Gen(d, x) + Defs(d, rest) == known + Defs(d, q);
    }
  }

  lemma BranchPathHere(d: Definition, x: string, seen: set<string>)
    requires x in d.eles && x !in seen
    ensures BranchPath(d, [x], x, x, seen)
  {
  }

  lemma BranchPathFirst(d: Definition, x: string, t: string, rest: seq<string>, f: string, seen: set<string>)
    requires x in d.eles && x !in seen && t in Outs(d, d.eles[x]) && BranchPath(d, rest, t, f, seen + {x})
    ensures BranchPath(d, [x] + rest, x, f, seen) && forall i | 0 <= i < |rest| :: rest[i] in d.eles
  {
    hide Outs;
    ConcatWalks(FlowGraph(d), [x], rest);
    SimpleFirst(x, rest, seen);
  }

  /** Along every simple way, the traversal comes by its end. */
  lemma {:induction false} VisitsComplete(d: Definition, x: string, known: set<string>, seen: set<string>,
                                          q: seq<string>)
    requires WellFormed(d) && x in d.eles && q != [] && x !in seen && BranchPath(d, q, x, q[|q| - 1], seen)
    ensures (q[|q| - 1], known + Defs(d, q)) in Visits(d, x, known, seen)
    decreases |q|
  {
    hide WellFormed, Gen, Outs, VisitsAll, Defs;
    var rest := q[1..];
    assert q == [x] + rest;
    DefsFirst(d, x, rest);
    if rest == [] {
      assert known + Defs(d, q) == known + Gen(d, x);
    } else {
      var g := FlowGraph(d);
      assert Edge(g, q[0], q[0 + 1]);
      OutsClosed(d, x);
      SubWalk(g, q, 1, |q|);
      assert Elems(rest) !! seen + {x};
      assert rest[0] in Elems(rest);
      VisitsComplete(d, rest[0], known + Gen(d, x), seen + {x}, rest);
      var j :| 0 <= j < |Outs(d, d.eles[x])| && Outs(d, d.eles[x])[j] == rest[0];
      VisitsAllIncludes(d, Outs(d, d.eles[x]), j, known + Gen(d, x), seen + {x});
      assert known + Gen(d, x) + Defs(d, rest) == known + Defs(d, q);
    }
  }

  lemma VisitsAllIncludes(d: Definition, outs: seq<string>, i: nat, known: set<string>, seen: set<string>)
    requires WellFormed(d) && (forall t | t in outs :: t in d.eles) && i < |outs| && outs[i] !in seen
    ensures Visits(d, outs[i], known, seen) <= VisitsAll(d, outs, known, seen)
  {
    hide WellFormed, Visits;
    assert outs[..i + 1][..i] == outs[..i];
    VisitsAllGrows(d, outs, i + 1, known, seen);
  }

  lemma SimpleFirst(x: string, rest: seq<string>, seen: set<string>)
    requires Simple(rest) && Elems(rest) !! seen + {x} && x !in seen
    ensures Simple([x] + rest) && Elems([x] + rest) !! seen
  {
    var q := [x] + rest;
    assert forall i | 0 < i < |q| :: q[i] == rest[i - 1] && rest[i - 1] in Elems(rest);
  }

  lemma DefsFirst(d: Definition, x: string, rest: seq<string>)
    requires WellFormed(d) && x in d.eles && forall i | 0 <= i < |rest| :: rest[i] in d.eles
    ensures forall i | 0 <= i < |[x] + rest| :: ([x] + rest)[i] in d.eles
    ensures Defs(d, [x] + rest) == Gen(d, x) + Defs(d, rest)
    ensures rest == [] ==> Defs(d, [x] + rest) == Gen(d, x)
  {
    hide WellFormed, Gen;
    var q := [x] + rest;
    assert q[0] == x && forall i | 0 < i < |q| :: q[i] == rest[i - 1];
    forall v | v in Gen(d, x) + Defs(d, rest)
      ensures v in Defs(d, q)
    {
      if v in Gen(d, x) {
        assert v in Gen(d, q[0]);
      } else {
        var i :| 0 <= i < |rest| && v in Gen(d, rest[i]);
        assert v in Gen(d, q[i + 1]);
      }
    }
  }

  lemma DefsMonotone(d: Definition, p: seq<string>, w: seq<string>)
    requires WellFormed(d) && (forall i | 0 <= i < |p| :: p[i] in d.eles) && (forall i | 0 <= i < |w| :: w[i] in d.eles)
    requires Elems(p) <= Elems(w)
    ensures Defs(d, p) <= Defs(d, w)
  {
    hide WellFormed, Gen;
    forall v | v in Defs(d, p)
      ensures v in Defs(d, w)
    {
      var i :| 0 <= i < |p| && v in Gen(d, p[i]);
      assert p[i] in Elems(p);
      var j :| 0 <= j < |w| && w[j] == p[i];
    }
  }

  /** What the check is for, of one walk: its last element makes sense and reads only what the walk has set. */
  ghost predicate SafeWalk(d: Definition, w: seq<string>)
    requires WellFormed(d) && w != [] && forall i | 0 <= i < |w| :: w[i] in d.eles
  {
    !Broken(d, w[|w| - 1]) && Reads(d, w[|w| - 1]) <= Defs(d, w)
  }

  /** Nothing is reported from a start event if and only if every walk from it is safe, with cycles and
      however long. */
  lemma NothingReportedIffWalksSafe(d: Definition, s: string)
    requires WellFormed(d) && s in d.eles
    ensures NoneBroken(d, Visits(d, s, {}, {})) && Undefined(d, Visits(d, s, {}, {})) == {}
            <==> forall w | IsWalk(FlowGraph(d), w) && w[0] == s :: SafeWalk(d, w)
  {
    hide WellFormed, Gen, Outs, VisitsAll, Visits, Defs, Broken, Reads;
    if NoneBroken(d, Visits(d, s, {}, {})) && Undefined(d, Visits(d, s, {}, {})) == {} {
      forall w | IsWalk(FlowGraph(d), w) && w[0] == s
        ensures SafeWalk(d, w)
      {
        SafeByErasure(d, s, w);
      }
    }
    if forall w | IsWalk(FlowGraph(d), w) && w[0] == s :: SafeWalk(d, w) {
      forall q | q in Visits(d, s, {}, {})
        ensures q.0 in d.eles && !Broken(d, q.0) && Reads(d, q.0) <= q.1
      {
        var p := VisitsSound(d, s, {}, {}, q.0, q.1);
        assert SafeWalk(d, p);
        assert {} + Defs(d, p) == Defs(d, p);
      }
    }
  }

  lemma ReadsKnown(d: Definition, vs: set<(string, set<string>)>, f: string, at: set<string>)
    requires Undefined(d, vs) == {} && (f, at) in vs && f in d.eles
    ensures Reads(d, f) <= at
  {
    hide Reads;
    forall v | v in Reads(d, f)
      ensures v in at
    {
      if v !in at {
        EntryFor(d, vs, f, at, v);
      }
    }
  }

  lemma EntryFor(d: Definition, vs: set<(string, set<string>)>, f: string, at: set<string>, v: string)
    requires (f, at) in vs && f in d.eles && v in Reads(d, f) && v !in at
    ensures (f, v) in Undefined(d, vs)
  {
    hide Reads;
    var q := (f, at);
    assert q in vs && q.0 in d.eles && v in Reads(d, q.0) && v !in q.1;
  }

  lemma SafeByErasure(d: Definition, s: string, w: seq<string>)
    requires WellFormed(d) && s in d.eles && IsWalk(FlowGraph(d), w) && w[0] == s
    requires NoneBroken(d, Visits(d, s, {}, {})) && Undefined(d, Visits(d, s, {}, {})) == {}
    ensures SafeWalk(d, w)
  {
    hide WellFormed, Gen, Outs, VisitsAll, Visits, Defs, Broken, Reads;
    var p := EraseLoops(FlowGraph(d), w);
    VisitsComplete(d, s, {}, {}, p);
    DefsMonotone(d, p, w);
    var f := p[|p| - 1];
    assert {} + Defs(d, p) == Defs(d, p);
    assert (f, Defs(d, p)) in Visits(d, s, {}, {});
    ReadsKnown(d, Visits(d, s, {}, {}), f, Defs(d, p));
  }

  /** A variable is reported for an element if and only if some simple way from the start leaves it unset. */
  lemma ReportedIffSomeWayUnset(d: Definition, s: string, f: string, v: string)
    requires WellFormed(d) && s in d.eles
    ensures (f, v) in Undefined(d, Visits(d, s, {}, {})) <==>
            exists q :: BranchPath(d, q, s, f, {}) && f in d.eles && v in Reads(d, f) && v !in Defs(d, q)
  {
    hide WellFormed, Gen, Outs, VisitsAll, Visits, Defs, Broken, Reads;
    if (f, v) in Undefined(d, Visits(d, s, {}, {})) {
      var e :| e in Visits(d, s, {}, {}) && e.0 in d.eles && v in Reads(d, e.0) && v !in e.1 && e.0 == f;
      var q := VisitsSound(d, s, {}, {}, e.0, e.1);
    }
    if q :| BranchPath(d, q, s, f, {}) && f in d.eles && v in Reads(d, f) && v !in Defs(d, q) {
      VisitsComplete(d, s, {}, {}, q);
    }
  }

  // ---- The whole check ----

  datatype Verdict = Accepted | Failed(error: CheckError) | ReferencesUndefined(report: map<string, set<string>>)

  ghost predicate FromStart(starts: seq<string>, d: Definition, w: seq<string>) {
    IsWalk(FlowGraph(d), w) && w[0] in starts
  }

  /** On every walk from a start event, with cycles and however long, each element reads only what was set. */
  ghost predicate AllWalksSafe(d: Definition, starts: seq<string>)
    requires WellFormed(d)
  {
    forall w | FromStart(starts, d, w) :: SafeWalk(d, w)
  }

  ghost predicate BrokenReachable(d: Definition, starts: seq<string>) {
    exists w :: FromStart(starts, d, w) && Broken(d, w[|w| - 1])
  }

  /** Some simple way from a start event to f leaves unset a variable that f reads. */
  ghost predicate UnsetOnSomeWay(d: Definition, starts: seq<string>, f: string, v: string)
    requires WellFormed(d)
  {
    exists q :: FromStart(starts, d, q) && Simple(q) && q[|q| - 1] == f && v in Reads(d, f) && v !in Defs(d, q)
  }

  function DefinitionOf(elements: seq<Element>, order: seq<string>, vars: string -> Option<seq<string>>): Definition {
    Definition(Elements.Enter(Elements.Flatten(elements), map[]), order, vars)
  }

  /** Accepts a process if and only if on every walk from a start event each element reads only variables
      set on the walk; fails if and only if an element that cannot be made sense of is reachable; and otherwise
      reports exactly the elements and variables that some simple way leaves unset. */
  method CheckVariables(elements: seq<Element>, order: seq<string>, vars: string -> Option<seq<string>>)
      returns (verdict: Verdict)
    requires WellFormed(DefinitionOf(elements, order, vars))
    requires forall s | s in Elements.FindElementIdsWithType([], StartEvent, elements) ::
               JoinsReady(DefinitionOf(elements, order, vars), s)
    ensures var d, starts := DefinitionOf(elements, order, vars),
            Elements.FindElementIdsWithType([], StartEvent, elements);
            && (verdict.Accepted? <==> AllWalksSafe(d, starts))
            && (verdict.Failed? <==> BrokenReachable(d, starts))
            && (verdict.ReferencesUndefined? ==>
                  forall f, v :: (f in verdict.report && v in verdict.report[f]) <==> UnsetOnSomeWay(d, starts, f, v))
  {
    hide WellFormed, JoinsReady, AllWalksSafe, BrokenReachable, UnsetOnSomeWay, Elements.Enter, Elements.Flatten,
      Elements.FindElementIdsWithType;
    var elesById := Elements.IndexProcessElements(elements, map[]);
    var startElementIds := Elements.FindElementIdsWithType([], StartEvent, elements);
    StartsIndexed(elements, order, vars);
    var checker := new Checker(Definition(elesById, order, vars));
    verdict := CheckStarts(checker, startElementIds);
  }

  method CheckStarts(checker: Checker, startElementIds: seq<string>) returns (verdict: Verdict)
    requires WellFormed(checker.d) && checker.report == map[]
    requires forall s | s in startElementIds :: s in checker.d.eles && JoinsReady(checker.d, s)
    modifies checker
    ensures verdict.Accepted? <==> AllWalksSafe(checker.d, startElementIds)
    ensures verdict.Failed? <==> BrokenReachable(checker.d, startElementIds)
    ensures verdict.ReferencesUndefined? ==>
              forall f, v :: (f in verdict.report && v in verdict.report[f]) <==>
                UnsetOnSomeWay(checker.d, startElementIds, f, v)
  {
    hide WellFormed, JoinsReady, Visits, Defs, FlowGraph, IsWalk, Undefined, NoneBroken, Simple, Elems, AllWalksSafe,
      BrokenReachable, UnsetOnSomeWay;
    ghost var d := checker.d;
    for idx := 0 to |startElementIds|
      invariant checker.Valid()
      invariant forall i | 0 <= i < idx :: NoneBroken(d, Visits(d, startElementIds[i], {}, {}))
      invariant Reported(checker.report) == ReportFrom(d, startElementIds[..idx])
    {
      var branchId := Decimal.Itoa(idx);
      checker.branchContexts := checker.branchContexts[branchId := BranchContext({}, {})];
      EmptyPath(d, startElementIds[idx]);
      var err := checker.FindElementsReferencingUndefinedVars(startElementIds[idx], branchId, []);
      if err.Some? {
        FailedMeans(d, startElementIds, idx);
        return Failed(err.value);
      }
      assert startElementIds[..idx + 1][..idx] == startElementIds[..idx];
    }
    assert startElementIds[..|startElementIds|] == startElementIds;
    NotFailedMeans(d, startElementIds);
    ReportMeans(d, startElementIds);
    EntriesExist(checker.report);
    if checker.report != map[] {
      verdict := ReferencesUndefined(checker.report);
    } else {
      verdict := Accepted;
    }
  }

  ghost function ReportFrom(d: Definition, starts: seq<string>): (entries: set<(string, string)>)
    requires WellFormed(d)
  {
    if starts == [] then {}
    else
      var s := starts[|starts| - 1];
      ReportFrom(d, starts[..|starts| - 1]) + (if s in d.eles then Undefined(d, Visits(d, s, {}, {})) else {})
  }

  lemma {:induction false} ReportFromMember(d: Definition, starts: seq<string>, entry: (string, string))
    requires WellFormed(d)
    ensures entry in ReportFrom(d, starts) <==>
            exists i :: 0 <= i < |starts| && starts[i] in d.eles && entry in Undefined(d, Visits(d, starts[i], {}, {}))
  {
    hide WellFormed, Visits, Undefined;
    if starts != [] {
      var n := |starts| - 1;
      ReportFromMember(d, starts[..n], entry);
      if i :| 0 <= i < n && starts[..n][i] in d.eles && entry in Undefined(d, Visits(d, starts[..n][i], {}, {})) {
        assert starts[i] == starts[..n][i];
      }
      if i :| 0 <= i < |starts| && starts[i] in d.eles && entry in Undefined(d, Visits(d, starts[i], {}, {})) {
        assert i < n ==> starts[..n][i] == starts[i];
      }
    }
  }

  lemma StartsIndexed(elements: seq<Element>, order: seq<string>, vars: string -> Option<seq<string>>)
    ensures forall s | s in Elements.FindElementIdsWithType([], StartEvent, elements) ::
              s in DefinitionOf(elements, order, vars).eles
  {
    forall s | s in Elements.FindElementIdsWithType([], StartEvent, elements)
      ensures s in DefinitionOf(elements, order, vars).eles
    {
      Elements.IdsWithTypeAre(elements, StartEvent, s);
      var i :| 0 <= i < |elements| && elements[i].typ == StartEvent && elements[i].id == s;
      Elements.TopLevelIsIndexed(elements, i);
    }
  }

  lemma EmptyPath(d: Definition, s: string)
    requires WellFormed(d) && s in d.eles
    ensures Defs(d, []) == {} && Elems([]) == {}
    ensures IsWalk(FlowGraph(d), [] + [s]) && Simple([] + [s])
  {
    hide WellFormed;
    assert [] + [s] == [s];
  }

  lemma FailedMeans(d: Definition, starts: seq<string>, idx: nat)
    requires WellFormed(d) && idx < |starts| && starts[idx] in d.eles
    requires !NoneBroken(d, Visits(d, starts[idx], {}, {}))
    ensures BrokenReachable(d, starts) && !AllWalksSafe(d, starts)
  {
    hide WellFormed, Gen, Outs, VisitsAll, Visits, Defs, Broken, Reads;
    var q :| q in Visits(d, starts[idx], {}, {}) && q.0 in d.eles && Broken(d, q.0);
    var w := VisitsSound(d, starts[idx], {}, {}, q.0, q.1);
    assert FromStart(starts, d, w) && !SafeWalk(d, w);
  }

  lemma NotFailedMeans(d: Definition, starts: seq<string>)
    requires WellFormed(d)
    requires forall i | 0 <= i < |starts| :: starts[i] in d.eles && NoneBroken(d, Visits(d, starts[i], {}, {}))
    ensures !BrokenReachable(d, starts)
    ensures ReportFrom(d, starts) == {} <==> AllWalksSafe(d, starts)
  {
    hide WellFormed, Gen, Outs, VisitsAll, Visits, Defs, Broken, Reads, Undefined, SafeWalk, FlowGraph, ReportFrom;
    forall w | FromStart(starts, d, w)
      ensures !Broken(d, w[|w| - 1])
      ensures ReportFrom(d, starts) == {} ==> SafeWalk(d, w)
    {
      var i :| 0 <= i < |starts| && starts[i] == w[0];
      NotBrokenByErasure(d, starts[i], w);
      if ReportFrom(d, starts) == {} {
        forall entry
          ensures entry !in Undefined(d, Visits(d, starts[i], {}, {}))
        {
          ReportFromMember(d, starts, entry);
        }
        assert Undefined(d, Visits(d, starts[i], {}, {})) == {};
        SafeByErasure(d, starts[i], w);
      }
    }
    if AllWalksSafe(d, starts) {
      forall entry
        ensures entry !in ReportFrom(d, starts)
      {
        ReportFromMember(d, starts, entry);
        if i :| 0 <= i < |starts| && starts[i] in d.eles && entry in Undefined(d, Visits(d, starts[i], {}, {})) {
          assert forall w | IsWalk(FlowGraph(d), w) && w[0] == starts[i] :: FromStart(starts, d, w);
          NothingReportedIffWalksSafe(d, starts[i]);
        }
      }
    }
  }

  lemma NotBrokenByErasure(d: Definition, s: string, w: seq<string>)
    requires WellFormed(d) && s in d.eles && IsWalk(FlowGraph(d), w) && w[0] == s
    requires NoneBroken(d, Visits(d, s, {}, {}))
    ensures !Broken(d, w[|w| - 1])
  {
    hide WellFormed, Gen, Outs, VisitsAll, Visits, Defs, Broken, Reads;
    var p := EraseLoops(FlowGraph(d), w);
    VisitsComplete(d, s, {}, {}, p);
  }

  lemma ReportMeans(d: Definition, starts: seq<string>)
    requires WellFormed(d)
    requires forall i | 0 <= i < |starts| :: starts[i] in d.eles
    ensures forall f, v :: (f, v) in ReportFrom(d, starts) <==> UnsetOnSomeWay(d, starts, f, v)
  {
    hide WellFormed, Gen, Outs, VisitsAll, Visits, Defs, Broken, Reads, Undefined, SafeWalk, FlowGraph, ReportFrom;
    forall f, v
      ensures (f, v) in ReportFrom(d, starts) <==> UnsetOnSomeWay(d, starts, f, v)
    {
      ReportFromMember(d, starts, (f, v));
      if i :| 0 <= i < |starts| && starts[i] in d.eles && (f, v) in Undefined(d, Visits(d, starts[i], {}, {})) {
        ReportedIffSomeWayUnset(d, starts[i], f, v);
        var q :| BranchPath(d, q, starts[i], f, {}) && f in d.eles && v in Reads(d, f) && v !in Defs(d, q);
        assert FromStart(starts, d, q);
      }
      if q :| FromStart(starts, d, q) && Simple(q) && q[|q| - 1] == f && v in Reads(d, f) && v !in Defs(d, q) {
        var i :| 0 <= i < |starts| && starts[i] == q[0];
        assert BranchPath(d, q, starts[i], f, {});
        ReportedIffSomeWayUnset(d, starts[i], f, v);
      }
    }
  }

  lemma EntriesExist(report: map<string, set<string>>)
    requires forall x | x in report :: report[x] != {}
    ensures report == map[] <==> Reported(report) == {}
    ensures forall f, v :: (f in report && v in report[f]) <==> (f, v) in Reported(report)
  {
    if report != map[] {
      var x :| x in report;
      var v :| v in report[x];
      assert (x, v) in Reported(report);
    }
  }
}
