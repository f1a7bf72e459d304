/** Telling splitting from joining gateways and matching each join to the split that opened it
    (client/parser/tagger.go). */
module Tagger {
  import opened Graph
  import opened Model

  const NULL_MARKER := "[<<null>>]"

  // ---- Who refers to an element ----

  /** One x for every occurrence of t. */
  function Mentions(ts: seq<string>, t: string, x: string): (r: seq<string>) {
    if ts == [] then [] else Mentions(ts[..|ts| - 1], t, x) + (if ts[|ts| - 1] == t then [x] else [])
  }

  /** The elements that lead to t, in document order, one entry for every flow. */
  function Inbound(ids: seq<string>, els: Index, t: string): (r: seq<string>)
    requires forall x | x in ids :: x in els
  {
    if ids == [] then []
    else
      var x := ids[|ids| - 1];
      Inbound(ids[..|ids| - 1], els, t) + Mentions(els[x].Targets(), t, x)
  }

  type References = map<string, seq<string>>

  function RefsTo(refs: References, t: string): seq<string> {
    if t in refs then refs[t] else []
  }

  predicate NoEmptyRefs(refs: References) {
    forall t | t in refs :: refs[t] != []
  }

  ghost predicate IsReferences(refs: References, ids: seq<string>, els: Index)
    requires forall x | x in ids :: x in els
  {
    NoEmptyRefs(refs) && forall t :: RefsTo(refs, t) == Inbound(ids, els, t)
  }

  lemma {:induction false} MentionsIff(ts: seq<string>, t: string, x: string, y: string)
    ensures y in Mentions(ts, t, x) <==> y == x && t in ts
  {
    if ts != [] {
      MentionsIff(ts[..|ts| - 1], t, x, y);
      assert ts == ts[..|ts| - 1] + [ts[|ts| - 1]];
    }
  }

  lemma {:induction false} InboundIff(ids: seq<string>, els: Index, t: string, y: string)
    requires forall x | x in ids :: x in els
    ensures y in Inbound(ids, els, t) <==> y in ids && t in els[y].Targets()
  {
    if ids != [] {
      var x := ids[|ids| - 1];
      InboundIff(ids[..|ids| - 1], els, t, y);
      MentionsIff(els[x].Targets(), t, x, y);
      assert ids == ids[..|ids| - 1] + [x];
    }
  }

  lemma {:induction false} MentionsCount(ts: seq<string>, t: string, x: string, y: string)
    ensures multiset(Mentions(ts, t, x))[y] == if y == x then multiset(ts)[t] else 0
  {
    if ts != [] {
      MentionsCount(ts[..|ts| - 1], t, x, y);
      assert ts == ts[..|ts| - 1] + [ts[|ts| - 1]];
    }
  }

  lemma LastIsNew(ids: seq<string>, y: string)
    requires ids != [] && forall i, j | 0 <= i < j < |ids| :: ids[i] != ids[j]
    ensures var n := |ids| - 1;
            ids[n] !in ids[..n] && (y in ids <==> y in ids[..n] || y == ids[n])
  {
    var n := |ids| - 1;
    assert ids == ids[..n] + [ids[n]];
  }

  /** An element is listed among those that lead to t as often as it has a flow to t. */
  lemma {:induction false} InboundCounts(ids: seq<string>, els: Index, t: string, y: string)
    requires (forall x | x in ids :: x in els) && forall i, j | 0 <= i < j < |ids| :: ids[i] != ids[j]
    ensures multiset(Inbound(ids, els, t))[y] == if y in ids then multiset(els[y].Targets())[t] else 0
  {
    hide Mentions, TargetIds;
    if ids != [] {
      var n := |ids| - 1;
      InboundCounts(ids[..n], els, t, y);
      MentionsCount(els[ids[n]].Targets(), t, ids[n], y);
      LastIsNew(ids, y);
      var a, b := Inbound(ids[..n], els, t), Mentions(els[ids[n]].Targets(), t, ids[n]);
      assert multiset(a + b)[y] == multiset(a)[y] + multiset(b)[y];
    }
  }

  method GetElementIdReferences(ids: seq<string>, els: Index) returns (refs: References)
    requires IdsMatch(els) && forall x | x in ids :: x in els
    ensures IsReferences(refs, ids, els)
  {
    hide Mentions;
    refs := map[];
    for i := 0 to |ids|
      invariant IsReferences(refs, ids[..i], els)
    {
      assert ids[..i + 1][..i] == ids[..i];
      refs := AddReferences(refs, els[ids[i]]);
    }
    assert ids[..|ids|] == ids;
  }

  lemma MentionsStep(ts: seq<string>, j: nat, x: string)
    requires j <= |ts|
    ensures j == 0 ==> forall t :: Mentions(ts[..j], t, x) == []
    ensures j < |ts| ==> forall t ::
            Mentions(ts[..j + 1], t, x) == Mentions(ts[..j], t, x) + if ts[j] == t then [x] else []
  {
    if j < |ts| {
      assert ts[..j + 1][..j] == ts[..j];
    }
  }

  /** The references `r` are those of `refs` and one to x for each of the targets listed. */
  ghost predicate RefsAdded(refs: References, r: References, ts: seq<string>, x: string) {
    NoEmptyRefs(r) && forall t :: RefsTo(r, t) == RefsTo(refs, t) + Mentions(ts, t, x)
  }

  lemma RefsAddedStep(refs: References, r: References, ts: seq<string>, j: nat, x: string)
    requires j < |ts| && RefsAdded(refs, r, ts[..j], x)
    ensures RefsAdded(refs, r[ts[j] := RefsTo(r, ts[j]) + [x]], ts[..j + 1], x)
  {
    hide Mentions;
    MentionsStep(ts, j, x);
    var next := r[ts[j] := RefsTo(r, ts[j]) + [x]];
    forall t
      ensures RefsTo(next, t) == RefsTo(refs, t) + Mentions(ts[..j + 1], t, x)
    {
      var more := if ts[j] == t then [x] else [];
      assert RefsTo(next, t) == RefsTo(r, t) + more;
      assert RefsTo(refs, t) + Mentions(ts[..j], t, x) + more == RefsTo(refs, t) + (Mentions(ts[..j], t, x) + more);
    }
  }

  lemma RefsAddedNone(refs: References, ts: seq<string>, x: string)
    requires NoEmptyRefs(refs)
    ensures RefsAdded(refs, refs, ts[..0], x)
  {
    hide Mentions;
    MentionsStep(ts, 0, x);
  }

  method AddReferences(refs: References, el: Element) returns (r: References)
    requires NoEmptyRefs(refs)
    ensures RefsAdded(refs, r, el.Targets(), el.id)
  {
    hide RefsAdded, TargetIds;
    r := refs;
    ghost var ts := el.Targets();
    RefsAddedNone(refs, ts, el.id);
    if el.outbound.Some? {
      var targets := el.outbound.value;
      for j := 0 to |targets|
        invariant RefsAdded(refs, r, ts[..j], el.id)
      {
        var elementId := targets[j].target;
        RefsAddedStep(refs, r, ts, j, el.id);
        var known := if elementId in r then r[elementId] else [];
        r := r[elementId := known + [el.id]];
      }
    }
    assert ts[..|ts|] == ts;
  }

  // ---- The search for the opening gateway ----

  /** What the search looks at in an element. */
  datatype Node = Plain | Gate(kind: GatewayType, direction: Direction)

  function View(els: Index): (nodes: map<string, Node>)
    ensures nodes.Keys == els.Keys
  {
    map x | x in els ::
      if els[x].typ.Gateway? && els[x].gateway.Some? then
        Gate(els[x].gateway.value.kind, els[x].gateway.value.direction)
      else Plain
  }

  /** The process as the search sees it: the elements, and for each one those that lead to it; and how far the search
      goes back at most. */
  datatype Process = Process(nodes: map<string, Node>, refs: References, bound: nat) {

    function BackGraph(): (g: Graph)
      ensures g.Keys == nodes.Keys
    {
      map x | x in nodes :: if x in refs then refs[x] else []
    }

    predicate Closed() {
      (forall t, y | t in refs && y in refs[t] :: y in nodes) && forall t | t in refs :: refs[t] != []
    }

    /** The search from every join ends. */
    ghost predicate WellFormed() {
      Closed() && SearchesEnd()
    }

    ghost predicate SearchesEnd() {
      forall j | IsJoin(j) :: Within(j, j, 0, bound)
    }

    predicate IsJoin(x: string) {
      x in nodes && nodes[x].Gate? && nodes[x].direction.Convergent?
    }

    /** A gateway of the same type as gw, other than gw. */
    predicate Same(gw: string, x: string)
      requires gw in nodes && x in nodes
    {
      x != gw && nodes[x].Gate? && nodes[gw].Gate? && nodes[x].kind == nodes[gw].kind
    }

    predicate SameSplit(gw: string, x: string)
      requires gw in nodes && x in nodes
    {
      Same(gw, x) && nodes[x].direction.Divergent?
    }

    function Delta(gw: string, x: string): int
      requires gw in nodes && x in nodes
    {
      if !Same(gw, x) then 0 else if nodes[x].direction.Convergent? then 1 else -1
    }

    // ---- Nesting depth along a path, by counting ----

    predicate Path(q: seq<string>) {
      IsWalk(BackGraph(), q)
    }

    /** How many joins more than splits of the type of gw lie on q. */
    function Balance(gw: string, q: seq<string>): int
      requires gw in nodes && forall i | 0 <= i < |q| :: q[i] in nodes
    {
      if q == [] then 0 else Delta(gw, q[0]) + Balance(gw, q[1..])
    }

    /** Every split of the type of gw on q closes a join met before it. */
    ghost predicate Matched(gw: string, q: seq<string>, stack: nat)
      requires gw in nodes && forall i | 0 <= i < |q| :: q[i] in nodes
    {
      forall i | 0 <= i < |q| && SameSplit(gw, q[i]) :: stack + Balance(gw, q[..i]) > 0
    }

    /** q ends at the first split of the type of gw that closes nothing on q. */
    ghost predicate Meets(gw: string, q: seq<string>, stack: nat)
      requires gw in nodes && q != [] && forall i | 0 <= i < |q| :: q[i] in nodes
    {
      var n := |q| - 1;
      Matched(gw, q[..n], stack) && SameSplit(gw, q[n]) && stack + Balance(gw, q[..n]) == 0
    }

    /** q ends at an element nothing leads to, without meeting such a split. */
    ghost predicate Escapes(gw: string, q: seq<string>, stack: nat)
      requires gw in nodes && q != [] && forall i | 0 <= i < |q| :: q[i] in nodes
    {
      Matched(gw, q, stack) && q[|q| - 1] !in refs
    }

    lemma BalanceFirst(gw: string, x: string, q: seq<string>, n: nat)
      requires gw in nodes && x in nodes && (forall i | 0 <= i < |q| :: q[i] in nodes) && n <= |q|
      ensures ([x] + q)[..n + 1] == [x] + q[..n]
      ensures forall i | 0 <= i < n + 1 :: ([x] + q[..n])[i] in nodes
      ensures Balance(gw, [x] + q[..n]) == Delta(gw, x) + Balance(gw, q[..n])
    {
      assert ([x] + q[..n])[1..] == q[..n];
    }

    lemma PrefixBalances(gw: string, x: string, q: seq<string>)
      requires gw in nodes && x in nodes && forall i | 0 <= i < |q| :: q[i] in nodes
      ensures forall i | 0 <= i < |[x] + q| :: ([x] + q)[i] in nodes
      ensures Balance(gw, ([x] + q)[..0]) == 0
      ensures forall i | 0 < i < |[x] + q| :: ([x] + q)[i] == q[i - 1]
                && Balance(gw, ([x] + q)[..i]) == Delta(gw, x) + Balance(gw, q[..i - 1])
    {
      hide Delta;
      assert ([x] + q)[..0] == [];
      forall i | 0 < i < |[x] + q|
        ensures Balance(gw, ([x] + q)[..i]) == Delta(gw, x) + Balance(gw, q[..i - 1])
      {
        BalanceFirst(gw, x, q, i - 1);
      }
    }

    /** Going one step further back shifts the depth by what that step closes or opens. */
    lemma MatchedFirst(gw: string, x: string, q: seq<string>, stack: nat)
      requires gw in nodes && x in nodes && forall i | 0 <= i < |q| :: q[i] in nodes
      ensures forall i | 0 <= i < |[x] + q| :: ([x] + q)[i] in nodes
      ensures Matched(gw, [x] + q, stack) <==>
              (SameSplit(gw, x) ==> stack > 0) && stack + Delta(gw, x) >= 0 && Matched(gw, q, stack + Delta(gw, x))
    {
      PrefixBalances(gw, x, q);
      DeltaFloor(gw, x, stack);
      hide Balance, Delta, SameSplit;
      var p := [x] + q;
      assert p[0] == x;
      if Matched(gw, p, stack) {
        assert SameSplit(gw, p[0]) ==> stack > 0;
        forall i | 0 <= i < |q| && SameSplit(gw, q[i])
          ensures stack + Delta(gw, x) + Balance(gw, q[..i]) > 0
        {
          assert p[i + 1] == q[i];
        }
      }
      if stack + Delta(gw, x) >= 0 && (SameSplit(gw, x) ==> stack > 0) && Matched(gw, q, stack + Delta(gw, x)) {
        forall i | 0 <= i < |p| && SameSplit(gw, p[i])
          ensures stack + Balance(gw, p[..i]) > 0
        {
          if i > 0 {
            assert p[i] == q[i - 1];
          }
        }
      }
    }

    lemma DeltaFloor(gw: string, x: string, stack: nat)
      requires gw in nodes && x in nodes
      ensures (SameSplit(gw, x) ==> stack > 0) ==> stack + Delta(gw, x) >= 0
    {
    }

    // ---- The search ----

    /** A split of the type of gw that closes nothing: the search goes no further. */
    predicate Stops(gw: string, x: string, stack: nat)
      requires gw in nodes && x in nodes
    {
      SameSplit(gw, x) && stack == 0
    }

    /** No way back from x that meets no such split has more than n elements. */
    ghost predicate Within(gw: string, x: string, stack: nat, n: nat)
      requires gw in nodes
    {
      forall q | Path(q) && q[0] == x && Matched(gw, q, stack) :: |q| <= n
    }

    lemma BackStep(gw: string, x: string, stack: nat, n: nat, i: nat)
      requires Closed() && gw in nodes && x in nodes && Within(gw, x, stack, n) && !Stops(gw, x, stack)
      requires x in refs && i < |refs[x]|
      ensures refs[x][i] in nodes && Edge(BackGraph(), x, refs[x][i]) && stack + Delta(gw, x) >= 0
      ensures n > 0 && Within(gw, refs[x][i], stack + Delta(gw, x), n - 1)
    {
      var y, depth := refs[x][i], stack + Delta(gw, x);
      assert y in BackGraph()[x] && refs[x][i] in refs[x];
      DeltaFloor(gw, x, stack);
      MatchedFirst(gw, x, [], stack);
      assert [x] + [] == [x] && Path([x]);
      hide Matched, Delta, Balance, SameSplit;
      assert |[x]| <= n;
      forall q | Path(q) && q[0] == y && Matched(gw, q, depth)
        ensures |q| <= n - 1
      {
        ConcatWalks(BackGraph(), [x], q);
        MatchedFirst(gw, x, q, stack);
        assert ([x] + q)[0] == x;
      }
    }

    /** What the search backwards from x collects, at nesting depth `stack`, on ways of at most n elements. */
    ghost function Recip(gw: string, x: string, stack: nat, n: nat): (r: set<string>)
      requires gw in nodes && x in nodes
      decreases n, 0
    {
      if Stops(gw, x, stack) then {x}
      else if x !in refs then {NULL_MARKER}
      else if n == 0 then {}
      else RecipAll(gw, refs[x], stack + Delta(gw, x), n - 1)
    }

    /** ... from the elements listed. */
    ghost function RecipAll(gw: string, ys: seq<string>, stack: nat, n: nat): (r: set<string>)
      requires gw in nodes
      decreases n, 1, |ys|
    {
      if ys == [] then {}
      else
        var y := ys[|ys| - 1];
        RecipAll(gw, ys[..|ys| - 1], stack, n) + (if y in nodes then Recip(gw, y, stack, n) else {})
    }

    /** Without cycles the search goes back no further than there are elements to come by. */
    lemma AcyclicEnds(gw: string, x: string, stack: nat)
      requires gw in nodes && x in nodes && Acyclic(BackGraph())
      ensures Within(gw, x, stack, |nodes|)
    {
      forall q | Path(q) && q[0] == x && Matched(gw, q, stack)
        ensures |q| <= |nodes|
      {
        AcyclicEverywhere(BackGraph(), x);
        WalkIsShort(BackGraph(), q);
        SubsetSize(ReachSet(BackGraph(), x), nodes.Keys);
      }
    }

    // ---- What the search collects ----

    lemma MeetsFirst(gw: string, x: string, q: seq<string>, stack: nat)
      requires gw in nodes && x in nodes && q != [] && forall i | 0 <= i < |q| :: q[i] in nodes
      ensures forall i | 0 <= i < |[x] + q| :: ([x] + q)[i] in nodes
      ensures Meets(gw, [x] + q, stack) <==>
              (SameSplit(gw, x) ==> stack > 0) && stack + Delta(gw, x) >= 0 && Meets(gw, q, stack + Delta(gw, x))
      ensures Escapes(gw, [x] + q, stack) <==>
              (SameSplit(gw, x) ==> stack > 0) && stack + Delta(gw, x) >= 0 && Escapes(gw, q, stack + Delta(gw, x))
    {
      hide Balance, Matched, SameSplit, Delta;
      var n := |q| - 1;
      BalanceFirst(gw, x, q, n);
      MatchedFirst(gw, x, q[..n], stack);
      MatchedFirst(gw, x, q, stack);
      assert ([x] + q)[n + 1] == q[n];
    }

    lemma {:induction false} RecipAllIff(gw: string, ys: seq<string>, stack: nat, n: nat, id: string)
      requires gw in nodes
      ensures id in RecipAll(gw, ys, stack, n) <==> exists y :: y in ys && y in nodes && id in Recip(gw, y, stack, n)
    {
      hide Recip;
      if ys != [] {
        RecipAllIff(gw, ys[..|ys| - 1], stack, n, id);
        assert ys == ys[..|ys| - 1] + [ys[|ys| - 1]];
      }
    }

    lemma SomethingLeads(x: string)
      requires Closed() && x in refs
      ensures |refs[x]| > 0
    {
    }

    /** The search goes on from x to what leads to x. */
    lemma RecipIs(gw: string, x: string, stack: nat, n: nat, id: string)
      requires Closed() && gw in nodes && x in nodes && Within(gw, x, stack, n)
      ensures Stops(gw, x, stack) ==> Recip(gw, x, stack, n) == {x}
      ensures !Stops(gw, x, stack) && x !in refs ==> Recip(gw, x, stack, n) == {NULL_MARKER}
      ensures !Stops(gw, x, stack) && x in refs ==>
                && |refs[x]| > 0 && n > 0 && stack + Delta(gw, x) >= 0
                && (id in Recip(gw, x, stack, n) <==>
                      exists y :: y in refs[x] && y in nodes && id in Recip(gw, y, stack + Delta(gw, x), n - 1))
    {
      hide Closed, Within, Stops, Delta;
      if !Stops(gw, x, stack) && x in refs {
        SomethingLeads(x);
        BackStep(gw, x, stack, n, 0);
        RecipAllIff(gw, refs[x], stack + Delta(gw, x), n - 1, id);
      }
    }

    /** Whatever is collected is met, or escapes, on some way back. */
    lemma {:induction false} RecipSound(gw: string, x: string, stack: nat, n: nat, id: string) returns (q: seq<string>)
      requires Closed() && gw in nodes && x in nodes && Within(gw, x, stack, n) && id in Recip(gw, x, stack, n)
      ensures Path(q) && q[0] == x
      ensures (q[|q| - 1] == id && Meets(gw, q, stack)) || (id == NULL_MARKER && Escapes(gw, q, stack))
      decreases n
    {
      hide Closed, Recip, Within, Meets, Escapes, Delta, SameSplit;
      q := [x];
      MeetsAtOnce(gw, x, stack);
      RecipIs(gw, x, stack, n, id);
      if !Stops(gw, x, stack) && x in refs {
        var y :| y in refs[x] && y in nodes && id in Recip(gw, y, stack + Delta(gw, x), n - 1);
        var i :| 0 <= i < |refs[x]| && refs[x][i] == y;
        BackStep(gw, x, stack, n, i);
        var rest := RecipSound(gw, y, stack + Delta(gw, x), n - 1, id);
        ConcatWalks(BackGraph(), [x], rest);
        MeetsFirst(gw, x, rest, stack);
        q := [x] + rest;
      }
    }

    /** Whatever is met, or escapes, on some way back is collected. */
    lemma {:induction false} RecipComplete(gw: string, q: seq<string>, stack: nat, n: nat)
      requires Closed() && gw in nodes && Path(q) && Within(gw, q[0], stack, n)
      ensures Meets(gw, q, stack) ==> q[|q| - 1] in Recip(gw, q[0], stack, n)
      ensures Escapes(gw, q, stack) ==> NULL_MARKER in Recip(gw, q[0], stack, n)
      decreases |q|
    {
      hide Closed, Recip, Within, Meets, Escapes, Delta;
      if Meets(gw, q, stack) || Escapes(gw, q, stack) {
        var x, rest := q[0], q[1..];
        if |q| > 1 {
          assert q == [x] + rest;
          SubWalk(BackGraph(), q, 1, |q|);
          assert Edge(BackGraph(), q[0], q[0 + 1]);
          MeetsFirst(gw, x, rest, stack);
          var i :| 0 <= i < |refs[x]| && refs[x][i] == rest[0];
          BackStep(gw, x, stack, n, i);
          RecipComplete(gw, rest, stack + Delta(gw, x), n - 1);
          RecipIs(gw, x, stack, n, q[|q| - 1]);
          RecipIs(gw, x, stack, n, NULL_MARKER);
        } else {
          assert q == [x];
          EndsAtOnce(gw, x, stack);
          RecipIs(gw, x, stack, n, x);
        }
      }
    }

    lemma EndsAtOnce(gw: string, x: string, stack: nat)
      requires gw in nodes && x in nodes
      ensures Meets(gw, [x], stack) ==> Stops(gw, x, stack)
      ensures Escapes(gw, [x], stack) ==> !Stops(gw, x, stack) && x !in refs
    {
      assert [x][..0] == [] && [x] == [x] + [];
      MatchedFirst(gw, x, [], stack);
    }

    /** The search collects a gateway exactly when some way back first meets an unmatched split there, and the
        marker exactly when some way back meets none up to an element nothing leads to. */
    lemma RecipExact(gw: string, n: nat, id: string)
      requires Closed() && gw in nodes && Within(gw, gw, 0, n)
      ensures id in Recip(gw, gw, 0, n) <==>
              || (exists q :: Path(q) && q[0] == gw && q[|q| - 1] == id && Meets(gw, q, 0))
              || (id == NULL_MARKER && exists q :: Path(q) && q[0] == gw && Escapes(gw, q, 0))
    {
      hide Closed, Within, Meets, Escapes, Recip;
      if id in Recip(gw, gw, 0, n) {
        var q := RecipSound(gw, gw, 0, n, id);
      }
      if q :| Path(q) && q[0] == gw && q[|q| - 1] == id && Meets(gw, q, 0) {
        RecipComplete(gw, q, 0, n);
      }
      if q :| Path(q) && q[0] == gw && Escapes(gw, q, 0) {
        RecipComplete(gw, q, 0, n);
      }
    }

    /** Matching never comes back empty-handed. */
    lemma {:induction false} RecipNotEmpty(gw: string, x: string, stack: nat, n: nat)
      requires Closed() && gw in nodes && x in nodes && Within(gw, x, stack, n)
      ensures Recip(gw, x, stack, n) != {}
      decreases n
    {
      hide Closed, Recip, Within, Stops, Delta;
      RecipIs(gw, x, stack, n, x);
      if !Stops(gw, x, stack) && x in refs {
        BackStep(gw, x, stack, n, 0);
        RecipNotEmpty(gw, refs[x][0], stack + Delta(gw, x), n - 1);
        var id :| id in Recip(gw, refs[x][0], stack + Delta(gw, x), n - 1);
        RecipIs(gw, x, stack, n, id);
      }
    }

    // ---- Putting ways together ----

    lemma {:induction false} BalanceConcat(gw: string, a: seq<string>, b: seq<string>)
      requires gw in nodes && (forall i | 0 <= i < |a| :: a[i] in nodes) && forall i | 0 <= i < |b| :: b[i] in nodes
      ensures forall i | 0 <= i < |a + b| :: (a + b)[i] in nodes
      ensures Balance(gw, a + b) == Balance(gw, a) + Balance(gw, b)
    {
      hide Delta;
      if a == [] {
        assert a + b == b;
      } else {
        BalanceConcat(gw, a[1..], b);
        assert (a + b)[1..] == a[1..] + b;
      }
    }

    /** A way is matched when its first part is, and the rest at the depth where the first part leaves off. */
    lemma {:induction false} MatchedConcat(gw: string, a: seq<string>, b: seq<string>, stack: nat)
      requires gw in nodes && (forall i | 0 <= i < |a| :: a[i] in nodes) && forall i | 0 <= i < |b| :: b[i] in nodes
      ensures forall i | 0 <= i < |a + b| :: (a + b)[i] in nodes
      ensures Matched(gw, a, stack) ==> stack + Balance(gw, a) >= 0
      ensures Matched(gw, a + b, stack) <==> Matched(gw, a, stack) && Matched(gw, b, stack + Balance(gw, a))
    {
      hide Matched, Delta, SameSplit;
      if a == [] {
        assert a + b == b;
        NothingMatched(gw, stack);
      } else {
        var x, rest := a[0], a[1..];
        assert a == [x] + rest && a + b == [x] + (rest + b);
        MatchedFirst(gw, x, rest, stack);
        DeltaFloor(gw, x, stack);
        assert forall i | 0 <= i < |rest| :: rest[i] == a[i + 1];
        if stack + Delta(gw, x) >= 0 {
          MatchedConcat(gw, rest, b, stack + Delta(gw, x));
        }
        MatchedFirst(gw, x, rest + b, stack);
      }
    }

    lemma NothingMatched(gw: string, stack: nat)
      requires gw in nodes
      ensures Matched(gw, [], stack) && Balance(gw, []) == 0
    {
    }

    lemma UnmatchedAt(gw: string, q: seq<string>, k: nat)
      requires gw in nodes && (forall i | 0 <= i < |q| :: q[i] in nodes) && k < |q|
      ensures SameSplit(gw, q[k]) && Balance(gw, q[..k]) == 0 ==> !Matched(gw, q, 0)
    {
      hide SameSplit, Balance;
    }

    /** A way along which not every split is matched meets one. */
    lemma {:induction false} MatchedOrMeets(gw: string, q: seq<string>, stack: nat) returns (n: nat)
      requires gw in nodes && forall i | 0 <= i < |q| :: q[i] in nodes
      ensures Matched(gw, q, stack) || (1 <= n <= |q| && Meets(gw, q[..n], stack))
    {
      hide Meets, Balance, Delta, SameSplit, Matched;
      n := 1;
      if q == [] {
        NothingMatched(gw, stack);
      } else {
        var x, rest := q[0], q[1..];
        assert q[..1] == [x] && q == [x] + rest;
        assert forall i | 0 <= i < |rest| :: rest[i] == q[i + 1];
        MeetsAtOnce(gw, x, stack);
        if !Stops(gw, x, stack) {
          DeltaFloor(gw, x, stack);
          var m := MatchedOrMeets(gw, rest, stack + Delta(gw, x));
          MatchedFirst(gw, x, rest, stack);
          if !Matched(gw, rest, stack + Delta(gw, x)) {
            n := m + 1;
            assert q[..n] == [x] + rest[..m];
            MeetsFirst(gw, x, rest[..m], stack);
          }
        }
      }
    }

    // ---- The reciprocal dominates the join ----

    /** On a way back that ends where nothing leads to, some split is met or the whole way escapes. */
    lemma MeetsOrEscapes(gw: string, q: seq<string>, stack: nat) returns (n: nat)
      requires gw in nodes && Path(q) && q[|q| - 1] !in refs
      ensures Escapes(gw, q, stack) || (1 <= n <= |q| && Meets(gw, q[..n], stack))
    {
      hide Meets, Balance, Matched;
      n := MatchedOrMeets(gw, q, stack);
    }

    lemma MeetsAtOnce(gw: string, x: string, stack: nat)
      requires gw in nodes && x in nodes
      ensures Stops(gw, x, stack) ==> Meets(gw, [x], stack)
      ensures !Stops(gw, x, stack) && x !in refs ==> Escapes(gw, [x], stack)
    {
      assert [x][..0] == [];
    }

    /** When the search from a join finds one split and no way that escapes it, every way from an element nothing
        leads to passes through that split. */
    lemma ReciprocalDominates(gw: string, split: string, q: seq<string>)
      requires Closed() && gw in nodes && Within(gw, gw, 0, bound) && Recip(gw, gw, 0, bound) == {split}
      requires split != NULL_MARKER
      requires Path(q) && q[0] == gw && q[|q| - 1] !in refs
      ensures split in q[1..]
    {
      hide Recip, Closed, Within;
      var n := MeetsOrEscapes(gw, q, 0);
      RecipComplete(gw, q, 0, bound);
      assert !Escapes(gw, q, 0);
      SubWalk(BackGraph(), q, 0, n);
      assert q[0..n] == q[..n];
      RecipComplete(gw, q[..n], 0, bound);
      assert q[..n][n - 1] == q[n - 1] == split;
      assert SameSplit(gw, q[n - 1]);
      assert q[1..][n - 2] == split;
    }
  }

  // ---- Counting and bracketing, over the nodes alone ----

  /** A gateway other than gw, of its type and with the direction given. */
  predicate OtherGate(nodes: map<string, Node>, gw: string, x: string, dir: Direction) {
    gw in nodes && x in nodes && x != gw && nodes[gw].Gate? && nodes[x] == Gate(nodes[gw].kind, dir)
  }

  function Others(nodes: map<string, Node>, gw: string, q: seq<string>, dir: Direction): set<nat> {
    set i: nat | i < |q| && OtherGate(nodes, gw, q[i], dir)
  }

  function Count(nodes: map<string, Node>, gw: string, q: seq<string>, dir: Direction): nat {
    |Others(nodes, gw, q, dir)|
  }

  lemma OthersLast(nodes: map<string, Node>, gw: string, q: seq<string>, dir: Direction)
    requires q != []
    ensures var n := |q| - 1;
            Count(nodes, gw, q, dir)
            == Count(nodes, gw, q[..n], dir) + (if OtherGate(nodes, gw, q[n], dir) then 1 else 0)
  {
    hide OtherGate;
    var n := |q| - 1;
    var a, b := Others(nodes, gw, q, dir), Others(nodes, gw, q[..n], dir);
    assert a == if OtherGate(nodes, gw, q[n], dir) then b + {n} else b;
  }

  /** The balance of a way is the number of other joins of the type of gw on it, less the number of splits of it. */
  lemma {:induction false} BalanceCounts(p: Process, gw: string, q: seq<string>)
    requires gw in p.nodes && forall i | 0 <= i < |q| :: q[i] in p.nodes
    ensures p.Balance(gw, q) == Count(p.nodes, gw, q, Convergent) - Count(p.nodes, gw, q, Divergent)
  {
    if q == [] {
      assert Others(p.nodes, gw, q, Convergent) == {} == Others(p.nodes, gw, q, Divergent);
    } else {
      var n := |q| - 1;
      BalanceCounts(p, gw, q[..n]);
      p.BalanceConcat(gw, q[..n], [q[n]]);
      assert q == q[..n] + [q[n]];
      BalanceOfOne(p, gw, q[n]);
      OthersLast(p.nodes, gw, q, Convergent);
      OthersLast(p.nodes, gw, q, Divergent);
    }
  }

  lemma BalanceOfOne(p: Process, gw: string, x: string)
    requires gw in p.nodes && x in p.nodes
    ensures p.Balance(gw, [x]) == p.Delta(gw, x)
    ensures p.SameSplit(gw, x) <==> OtherGate(p.nodes, gw, x, Divergent)
    ensures p.Delta(gw, x)
            == (if OtherGate(p.nodes, gw, x, Convergent) then 1 else 0)
             - (if OtherGate(p.nodes, gw, x, Divergent) then 1 else 0)
  {
    assert [x][1..] == [];
  }

  /** The first unmatched split, by counting: as many joins as splits lie before it, and before every split on the
      way there more joins than splits. */
  lemma MeetsCounts(p: Process, gw: string, q: seq<string>)
    requires gw in p.nodes && q != [] && forall i | 0 <= i < |q| :: q[i] in p.nodes
    ensures p.Meets(gw, q, 0) <==>
            && OtherGate(p.nodes, gw, q[|q| - 1], Divergent)
            && Count(p.nodes, gw, q[..|q| - 1], Convergent) == Count(p.nodes, gw, q[..|q| - 1], Divergent)
            && forall i | 0 <= i < |q| - 1 && OtherGate(p.nodes, gw, q[i], Divergent) ::
                 Count(p.nodes, gw, q[..i], Convergent) > Count(p.nodes, gw, q[..i], Divergent)
    ensures p.Escapes(gw, q, 0) <==>
            && q[|q| - 1] !in p.refs
            && forall i | 0 <= i < |q| && OtherGate(p.nodes, gw, q[i], Divergent) ::
                 Count(p.nodes, gw, q[..i], Convergent) > Count(p.nodes, gw, q[..i], Divergent)
  {
    hide Process.Balance, Process.Delta, Process.SameSplit, OtherGate, Others;
    var n := |q| - 1;
    forall i | 0 <= i < |q|
      ensures p.SameSplit(gw, q[i]) <==> OtherGate(p.nodes, gw, q[i], Divergent)
      ensures p.Balance(gw, q[..i])
              == Count(p.nodes, gw, q[..i], Convergent) - Count(p.nodes, gw, q[..i], Divergent)
    {
      BalanceOfOne(p, gw, q[i]);
      BalanceCounts(p, gw, q[..i]);
    }
    hide Count;
    assert forall i | 0 <= i < n :: q[..n][i] == q[i] && q[..n][..i] == q[..i];
  }

  /** Read backwards from a join: nothing, an element that is no other gateway of its type, or another join with the
      split that opens it and whatever is bracketed between the two; and so on. */
  ghost predicate Bracketed(nodes: map<string, Node>, gw: string, q: seq<string>)
    decreases |q|
  {
    || q == []
    || (&& !OtherGate(nodes, gw, q[0], Convergent) && !OtherGate(nodes, gw, q[0], Divergent)
        && Bracketed(nodes, gw, q[1..]))
    || (&& OtherGate(nodes, gw, q[0], Convergent)
        && exists k :: 0 < k < |q| && OtherGate(nodes, gw, q[k], Divergent)
                       && Bracketed(nodes, gw, q[1..k]) && Bracketed(nodes, gw, q[k + 1..]))
  }

  /** The beginning of something bracketed: joins may be waiting for their splits. */
  ghost predicate Unfinished(nodes: map<string, Node>, gw: string, q: seq<string>)
    decreases |q|
  {
    || Bracketed(nodes, gw, q)
    || exists k :: 0 <= k < |q| && OtherGate(nodes, gw, q[k], Convergent)
                   && Bracketed(nodes, gw, q[..k]) && Unfinished(nodes, gw, q[k + 1..])
  }

  /** q comes to the split s with everything before it bracketed. */
  ghost predicate BracketedTo(nodes: map<string, Node>, gw: string, s: string, q: seq<string>) {
    exists k :: 0 <= k < |q| && q[k] == s && Bracketed(nodes, gw, q[..k])
  }

  /** Every way back from the join j comes to the split s with everything in between bracketed, or can be continued. */
  ghost predicate Encloses(nodes: map<string, Node>, refs: References, s: string, j: string) {
    && OtherGate(nodes, j, s, Divergent)
    && forall q | Process(nodes, refs, 0).Path(q) && q[0] == j ::
         BracketedTo(nodes, j, s, q) || (Unfinished(nodes, j, q) && q[|q| - 1] in refs)
  }

  /** What is bracketed leaves the depth as it was, and none of its splits is unmatched. */
  lemma {:induction false} BracketedMatches(p: Process, gw: string, q: seq<string>, stack: nat)
    requires gw in p.nodes && (forall i | 0 <= i < |q| :: q[i] in p.nodes) && Bracketed(p.nodes, gw, q)
    ensures p.Balance(gw, q) == 0 && p.Matched(gw, q, stack)
    decreases |q|
  {
    hide Process.Balance, Process.Matched, Process.Delta, Process.SameSplit, OtherGate;
    if q == [] {
      p.NothingMatched(gw, stack);
    } else {
      FirstIs(p, gw, q, stack);
      if !OtherGate(p.nodes, gw, q[0], Convergent) {
        BracketedMatches(p, gw, q[1..], stack);
      } else {
        var k :| 0 < k < |q| && OtherGate(p.nodes, gw, q[k], Divergent)
                 && Bracketed(p.nodes, gw, q[1..k]) && Bracketed(p.nodes, gw, q[k + 1..]);
        BracketedMatches(p, gw, q[1..k], stack + 1);
        BracketedMatches(p, gw, q[k + 1..], stack);
        assert q[1..][..k - 1] == q[1..k] && q[1..][k..] == q[k + 1..] && q[1..][k - 1] == q[k];
        ClosedAt(p, gw, q[1..], k - 1, stack + 1);
      }
    }
  }

  /** What the first element of a way does to the depth. */
  lemma FirstIs(p: Process, gw: string, q: seq<string>, stack: nat)
    requires q != [] && gw in p.nodes && forall i | 0 <= i < |q| :: q[i] in p.nodes
    ensures forall i | 0 <= i < |q[1..]| :: q[1..][i] in p.nodes
    ensures OtherGate(p.nodes, gw, q[0], Convergent) ==>
              && p.Balance(gw, q) == 1 + p.Balance(gw, q[1..])
              && (p.Matched(gw, q, stack) <==> p.Matched(gw, q[1..], stack + 1))
    ensures OtherGate(p.nodes, gw, q[0], Divergent) ==>
              && p.Balance(gw, q) == -1 + p.Balance(gw, q[1..])
              && (p.Matched(gw, q, stack) <==> stack > 0 && p.Matched(gw, q[1..], stack - 1))
    ensures !OtherGate(p.nodes, gw, q[0], Convergent) && !OtherGate(p.nodes, gw, q[0], Divergent) ==>
              && p.Balance(gw, q) == p.Balance(gw, q[1..])
              && (p.Matched(gw, q, stack) <==> p.Matched(gw, q[1..], stack))
  {
    hide Process.Matched;
    assert q == [q[0]] + q[1..];
    p.MatchedFirst(gw, q[0], q[1..], stack);
    BalanceOfOne(p, gw, q[0]);
  }

  /** A way taken apart at one of its splits. */
  lemma ClosedAt(p: Process, gw: string, q: seq<string>, k: nat, stack: nat)
    requires k < |q| && gw in p.nodes && (forall i | 0 <= i < |q| :: q[i] in p.nodes)
    requires OtherGate(p.nodes, gw, q[k], Divergent) && p.Balance(gw, q[..k]) == 0 && p.Matched(gw, q[..k], stack)
    ensures p.Balance(gw, q) == p.Balance(gw, q[k + 1..]) - 1
    ensures p.Matched(gw, q, stack) <==> stack > 0 && p.Matched(gw, q[k + 1..], stack - 1)
  {
    hide Process.Balance, Process.Matched, Process.Delta, Process.SameSplit, OtherGate;
    assert q == q[..k] + q[k..] && q[k..][1..] == q[k + 1..];
    p.BalanceConcat(gw, q[..k], q[k..]);
    p.MatchedConcat(gw, q[..k], q[k..], stack);
    FirstIs(p, gw, q[k..], stack);
  }

  lemma {:induction false} UnfinishedMatches(p: Process, gw: string, q: seq<string>, stack: nat)
    requires gw in p.nodes && (forall i | 0 <= i < |q| :: q[i] in p.nodes) && Unfinished(p.nodes, gw, q)
    ensures p.Matched(gw, q, stack)
    decreases |q|
  {
    hide Process.Balance, Process.Matched, Process.Delta, Process.SameSplit, OtherGate, Bracketed, Unfinished;
    if Bracketed(p.nodes, gw, q) {
      BracketedMatches(p, gw, q, stack);
    } else {
      var k := UnfinishedAt(p.nodes, gw, q);
      BracketedMatches(p, gw, q[..k], stack);
      UnfinishedMatches(p, gw, q[k + 1..], stack + 1);
      assert q == q[..k] + q[k..] && q[k..][1..] == q[k + 1..];
      FirstIs(p, gw, q[k..], stack);
      p.MatchedConcat(gw, q[..k], q[k..], stack);
    }
  }

  /** The split that closes a join one level down. */
  lemma ClosingSplit(p: Process, gw: string, q: seq<string>) returns (k: nat)
    requires gw in p.nodes && forall i | 0 <= i < |q| :: q[i] in p.nodes
    requires p.Matched(gw, q, 1) && !p.Matched(gw, q, 0)
    ensures k < |q| && OtherGate(p.nodes, gw, q[k], Divergent)
    ensures p.Matched(gw, q[..k], 0) && p.Balance(gw, q[..k]) == 0
    ensures p.Matched(gw, q[k + 1..], 0) && p.Balance(gw, q) == p.Balance(gw, q[k + 1..]) - 1
  {
    hide Process.Balance, Process.Matched, Process.Delta, Process.SameSplit, OtherGate;
    var n := p.MatchedOrMeets(gw, q, 0);
    k := n - 1;
    assert q[..n][k] == q[k] && q[..n][..k] == q[..k];
    BalanceOfOne(p, gw, q[k]);
    p.MatchedConcat(gw, q[..k], q[k..], 1);
    assert q == q[..k] + q[k..];
    ClosedAt(p, gw, q, k, 1);
  }

  /** Counting and bracketing agree: a way on which every split is matched is the beginning of something bracketed,
      and bracketed if it has as many splits as joins. */
  lemma {:induction false} MatchedIsBracketed(p: Process, gw: string, q: seq<string>)
    requires gw in p.nodes && (forall i | 0 <= i < |q| :: q[i] in p.nodes) && p.Matched(gw, q, 0)
    ensures Unfinished(p.nodes, gw, q)
    ensures p.Balance(gw, q) == 0 ==> Bracketed(p.nodes, gw, q)
    decreases |q|
  {
    hide Process.Balance, Process.Matched, Process.Delta, Process.SameSplit, OtherGate, Bracketed, Unfinished;
    if q == [] {
      BracketedNothing(p.nodes, gw);
    } else {
      var rest := q[1..];
      FirstIs(p, gw, q, 0);
      p.MatchedConcat(gw, q, [], 0);
      if !OtherGate(p.nodes, gw, q[0], Convergent) {
        MatchedIsBracketed(p, gw, rest);
        BracketedOnwards(p.nodes, gw, q);
      } else if p.Matched(gw, rest, 0) {
        p.MatchedConcat(gw, rest, [], 0);
        MatchedIsBracketed(p, gw, rest);
        UnfinishedOnwards(p.nodes, gw, q);
      } else {
        var k := ClosingSplit(p, gw, rest);
        MatchedIsBracketed(p, gw, rest[..k]);
        MatchedIsBracketed(p, gw, rest[k + 1..]);
        assert q[1..k + 1] == rest[..k] && q[k + 2..] == rest[k + 1..];
        BracketedPair(p.nodes, gw, q, k + 1);
      }
    }
  }

  lemma BracketedNothing(nodes: map<string, Node>, gw: string)
    ensures Bracketed(nodes, gw, []) && Unfinished(nodes, gw, [])
  {
  }

  lemma BracketedAround(nodes: map<string, Node>, gw: string, q: seq<string>, k: nat)
    requires 0 < k < |q| && OtherGate(nodes, gw, q[0], Convergent) && OtherGate(nodes, gw, q[k], Divergent)
    requires Bracketed(nodes, gw, q[1..k]) && Bracketed(nodes, gw, q[k + 1..])
    ensures Bracketed(nodes, gw, q)
  {
    hide OtherGate;
  }

  lemma BracketedBeside(nodes: map<string, Node>, gw: string, q: seq<string>)
    requires q != [] && !OtherGate(nodes, gw, q[0], Convergent) && !OtherGate(nodes, gw, q[0], Divergent)
    requires Bracketed(nodes, gw, q[1..])
    ensures Bracketed(nodes, gw, q)
  {
    hide OtherGate;
  }

  /** Where the last join that waits for its split is. */
  lemma UnfinishedAt(nodes: map<string, Node>, gw: string, q: seq<string>) returns (k: nat)
    requires Unfinished(nodes, gw, q) && !Bracketed(nodes, gw, q)
    ensures k < |q| && OtherGate(nodes, gw, q[k], Convergent)
    ensures Bracketed(nodes, gw, q[..k]) && Unfinished(nodes, gw, q[k + 1..])
  {
    hide OtherGate, Bracketed;
    k :| 0 <= k < |q| && OtherGate(nodes, gw, q[k], Convergent)
         && Bracketed(nodes, gw, q[..k]) && Unfinished(nodes, gw, q[k + 1..]);
  }

  lemma UnfinishedWhen(nodes: map<string, Node>, gw: string, q: seq<string>, k: nat)
    requires k < |q| && OtherGate(nodes, gw, q[k], Convergent)
    requires Bracketed(nodes, gw, q[..k]) && Unfinished(nodes, gw, q[k + 1..])
    ensures Unfinished(nodes, gw, q)
  {
    hide OtherGate, Bracketed;
  }

  lemma BracketedIsUnfinished(nodes: map<string, Node>, gw: string, q: seq<string>)
    requires Bracketed(nodes, gw, q)
    ensures Unfinished(nodes, gw, q)
  {
    hide Bracketed;
  }

  lemma BracketedOnwards(nodes: map<string, Node>, gw: string, q: seq<string>)
    requires q != [] && !OtherGate(nodes, gw, q[0], Convergent) && !OtherGate(nodes, gw, q[0], Divergent)
    requires Unfinished(nodes, gw, q[1..])
    ensures Unfinished(nodes, gw, q)
    ensures Bracketed(nodes, gw, q[1..]) ==> Bracketed(nodes, gw, q)
  {
    hide OtherGate, Bracketed, Unfinished;
    var rest := q[1..];
    if Bracketed(nodes, gw, rest) {
      BracketedBeside(nodes, gw, q);
      BracketedIsUnfinished(nodes, gw, q);
    } else {
      var k := UnfinishedAt(nodes, gw, rest);
      assert q[..k + 1][1..] == rest[..k] && q[k + 2..] == rest[k + 1..];
      BracketedBeside(nodes, gw, q[..k + 1]);
      UnfinishedWhen(nodes, gw, q, k + 1);
    }
  }

  lemma UnfinishedOnwards(nodes: map<string, Node>, gw: string, q: seq<string>)
    requires q != [] && OtherGate(nodes, gw, q[0], Convergent) && Unfinished(nodes, gw, q[1..])
    ensures Unfinished(nodes, gw, q)
  {
    hide OtherGate, Bracketed, Unfinished;
    BracketedNothing(nodes, gw);
    assert q[..0] == [];
    UnfinishedWhen(nodes, gw, q, 0);
  }

  lemma BracketedPair(nodes: map<string, Node>, gw: string, q: seq<string>, k: nat)
    requires 0 < k < |q| && OtherGate(nodes, gw, q[0], Convergent) && OtherGate(nodes, gw, q[k], Divergent)
    requires Bracketed(nodes, gw, q[1..k]) && Unfinished(nodes, gw, q[k + 1..])
    ensures Unfinished(nodes, gw, q)
    ensures Bracketed(nodes, gw, q[k + 1..]) ==> Bracketed(nodes, gw, q)
  {
    hide OtherGate, Bracketed, Unfinished;
    var rest := q[k + 1..];
    if Bracketed(nodes, gw, rest) {
      BracketedAround(nodes, gw, q, k);
      BracketedIsUnfinished(nodes, gw, q);
    } else {
      var m := UnfinishedAt(nodes, gw, rest);
      var n := k + 1 + m;
      assert q[..n][1..k] == q[1..k] && q[..n][k + 1..] == rest[..m] && q[n + 1..] == rest[m + 1..];
      BracketedAround(nodes, gw, q[..n], k);
      UnfinishedWhen(nodes, gw, q, n);
    }
  }

  // ---- The reciprocal of a join is the split that encloses it ----

  lemma BoundIsNoMatter(p: Process, q: seq<string>)
    ensures p.Path(q) <==> Process(p.nodes, p.refs, 0).Path(q)
  {
    assert p.BackGraph() == Process(p.nodes, p.refs, 0).BackGraph();
  }

  lemma EnclosesAt(p: Process, s: string, j: string, q: seq<string>)
    requires Encloses(p.nodes, p.refs, s, j) && p.Path(q) && q[0] == j
    ensures OtherGate(p.nodes, j, s, Divergent)
    ensures BracketedTo(p.nodes, j, s, q) || (Unfinished(p.nodes, j, q) && q[|q| - 1] in p.refs)
  {
    hide BracketedTo, Unfinished, OtherGate, Process.Path;
    BoundIsNoMatter(p, q);
  }

  /** A way back that has come to s with everything bracketed has an unmatched split there. */
  lemma BracketedToMeets(p: Process, j: string, s: string, q: seq<string>) returns (k: nat)
    requires j in p.nodes && (forall i | 0 <= i < |q| :: q[i] in p.nodes)
    requires OtherGate(p.nodes, j, s, Divergent) && BracketedTo(p.nodes, j, s, q)
    ensures k < |q| && q[k] == s && p.Balance(j, q[..k]) == 0 && p.SameSplit(j, q[k])
  {
    hide Bracketed, OtherGate, Process.Balance, Process.Matched, Process.SameSplit;
    k :| 0 <= k < |q| && q[k] == s && Bracketed(p.nodes, j, q[..k]);
    BracketedMatches(p, j, q[..k], 0);
    BalanceOfOne(p, j, s);
  }

  /** No way back from a join that is enclosed by s escapes, and the first unmatched split on it is s. */
  lemma EnclosedMeets(p: Process, s: string, j: string, q: seq<string>)
    requires j in p.nodes && Encloses(p.nodes, p.refs, s, j) && p.Path(q) && q[0] == j
    ensures !p.Escapes(j, q, 0)
    ensures p.Meets(j, q, 0) ==> q[|q| - 1] == s
  {
    hide Encloses, BracketedTo, Unfinished, OtherGate, Process.Balance, Process.SameSplit,
      Process.Matched, Process.BackGraph;
    EnclosesAt(p, s, j, q);
    WayInNodes(p, q);
    var n := |q| - 1;
    if BracketedTo(p.nodes, j, s, q) {
      var k := BracketedToMeets(p, j, s, q);
      p.UnmatchedAt(j, q, k);
      if k < n {
        assert q[..n][k] == q[k] && q[..n][..k] == q[..k];
        p.UnmatchedAt(j, q[..n], k);
      }
    } else {
      UnfinishedMatches(p, j, q, 0);
      p.UnmatchedAt(j, q, n);
    }
  }

  lemma WayInNodes(p: Process, q: seq<string>)
    requires p.Path(q)
    ensures forall i | 0 <= i < |q| :: q[i] in p.nodes
  {
  }

  /** The search from a join comes out with one split exactly when that split encloses the join: every way back from
      the join comes to the split with all joins and splits of its type in between bracketed. */
  lemma ResolvesIffEnclosed(p: Process, j: string, s: string)
    requires p.Closed() && p.IsJoin(j) && p.Within(j, j, 0, p.bound) && s != NULL_MARKER
    ensures Resolves(p, j, s) <==> Encloses(p.nodes, p.refs, s, j)
  {
    hide Resolves, Encloses, Process.Closed, Process.Within, Process.Recip, Process.Path;
    if Encloses(p.nodes, p.refs, s, j) {
      EnclosedResolves(p, j, s);
    }
    if Resolves(p, j, s) {
      ResolvedIsEnclosed(p, j, s);
    }
  }

  lemma EnclosedResolves(p: Process, j: string, s: string)
    requires p.Closed() && p.IsJoin(j) && p.Within(j, j, 0, p.bound) && s != NULL_MARKER
    requires Encloses(p.nodes, p.refs, s, j)
    ensures Resolves(p, j, s)
  {
    hide Resolves, Encloses, Process.Closed, Process.Within, Process.Recip, Process.Path, Process.Meets,
      Process.Escapes;
    var found := p.Recip(j, j, 0, p.bound);
    forall id | id in found
      ensures id == s
    {
      var q := p.RecipSound(j, j, 0, p.bound, id);
      EnclosedMeets(p, s, j, q);
    }
    p.RecipNotEmpty(j, j, 0, p.bound);
    var some :| some in found;
    assert found == {s};
    ResolvesWhen(p, j, s);
  }

  lemma ResolvedIsEnclosed(p: Process, j: string, s: string)
    requires Resolves(p, j, s)
    ensures Encloses(p.nodes, p.refs, s, j)
  {
    hide Resolves, BracketedTo, Unfinished, OtherGate, Process.Closed, Process.Within, Process.Recip, Process.BackGraph,
      Process.Balance, Process.Matched, Process.SameSplit;
    ResolvesIs(p, j, s);
    var way := p.RecipSound(j, j, 0, p.bound, s);
    WayInNodes(p, way);
    BalanceOfOne(p, j, s);
    forall q | Process(p.nodes, p.refs, 0).Path(q) && q[0] == j
      ensures BracketedTo(p.nodes, j, s, q) || (Unfinished(p.nodes, j, q) && q[|q| - 1] in p.refs)
    {
      BoundIsNoMatter(p, q);
      ResolvedWay(p, j, s, q);
    }
  }

  lemma ResolvedWay(p: Process, j: string, s: string, q: seq<string>)
    requires Resolves(p, j, s) && p.Path(q) && q[0] == j
    ensures BracketedTo(p.nodes, j, s, q) || (Unfinished(p.nodes, j, q) && q[|q| - 1] in p.refs)
  {
    hide Resolves, Bracketed, Unfinished, Process.Closed, Process.Within, Process.Recip, Process.Balance,
      Process.Matched, Process.SameSplit;
    ResolvesIs(p, j, s);
    p.RecipComplete(j, q, 0, p.bound);
    var n := p.MatchedOrMeets(j, q, 0);
    if p.Matched(j, q, 0) {
      MatchedIsBracketed(p, j, q);
    } else {
      SubWalk(p.BackGraph(), q, 0, n);
      assert q[0..n] == q[..n] && q[..n][..n - 1] == q[..n - 1];
      p.RecipComplete(j, q[..n], 0, p.bound);
      MatchedIsBracketed(p, j, q[..n - 1]);
      assert q[n - 1] == q[..n][n - 1] == s;
    }
  }

  /** A split within a split: S opens the branches a and T, which opens b and c; J closes T and K closes S. */
  const NESTED := Process(
    map["S" := Gate(Parallel, Divergent), "T" := Gate(Parallel, Divergent), "J" := Gate(Parallel, Convergent),
        "K" := Gate(Parallel, Convergent), "a" := Plain, "b" := Plain, "c" := Plain],
    map["K" := ["a", "J"], "J" := ["b", "c"], "a" := ["S"], "b" := ["T"], "c" := ["T"], "T" := ["S"]], 7)

  /** The outer join is enclosed by the outer split, past the inner pair. */
  lemma NestedIsEnclosed()
    ensures Encloses(NESTED.nodes, NESTED.refs, "S", "K")
  {
    NestedKinds();
    hide BracketedTo, Unfinished, OtherGate, Process.BackGraph, Edge, NestedSteps;
    forall q | Process(NESTED.nodes, NESTED.refs, 0).Path(q) && q[0] == "K"
      ensures BracketedTo(NESTED.nodes, "K", "S", q) || (Unfinished(NESTED.nodes, "K", q) && q[|q| - 1] in NESTED.refs)
    {
      BoundIsNoMatter(NESTED, q);
      NestedWay(q);
      NestedBrackets(q);
    }
  }

  lemma NestedStep(x: string, y: string)
    requires Edge(NESTED.BackGraph(), x, y)
    ensures x == "K" ==> y == "a" || y == "J"
    ensures x == "J" ==> y == "b" || y == "c"
    ensures x == "b" || x == "c" ==> y == "T"
    ensures x == "a" || x == "T" ==> y == "S"
  {
    assert NESTED.BackGraph()[x] == if x in NESTED.refs then NESTED.refs[x] else [];
  }

  lemma NestedKinds()
    ensures var n := NESTED.nodes;
            && OtherGate(n, "K", "S", Divergent) && OtherGate(n, "K", "T", Divergent)
            && OtherGate(n, "K", "J", Convergent)
            && forall x, d | x in {"K", "a", "b", "c"} :: !OtherGate(n, "K", x, d)
    ensures forall x | x in {"K", "J", "a", "b", "c", "T"} :: x in NESTED.refs
  {
  }

  predicate NestedSteps(q: seq<string>) {
    && q != [] && q[0] == "K" && (|q| > 1 ==> q[1] == "a" || q[1] == "J")
    && (|q| > 2 && q[1] == "a" ==> q[2] == "S") && (|q| > 2 && q[1] == "J" ==> q[2] == "b" || q[2] == "c")
    && (|q| > 3 && q[1] == "J" ==> q[3] == "T") && (|q| > 4 && q[1] == "J" ==> q[4] == "S")
  }

  lemma NestedWay(q: seq<string>)
    requires NESTED.Path(q) && q[0] == "K"
    ensures NestedSteps(q)
  {
    hide Process.BackGraph, Edge;
    if |q| > 1 {
      NestedStep(q[0], q[0 + 1]);
    }
    if |q| > 2 {
      NestedStep(q[1], q[1 + 1]);
    }
    if |q| > 3 {
      NestedStep(q[2], q[2 + 1]);
    }
    if |q| > 4 {
      NestedStep(q[3], q[3 + 1]);
    }
  }

  lemma NestedBrackets(q: seq<string>)
    requires NestedSteps(q)
    ensures BracketedTo(NESTED.nodes, "K", "S", q) || (Unfinished(NESTED.nodes, "K", q) && q[|q| - 1] in NESTED.refs)
  {
    var n := NESTED.nodes;
    NestedKinds();
    hide OtherGate, Bracketed, Unfinished;
    BesideNothing(n, "K", "K");
    if |q| == 1 {
      assert q == ["K"];
      BracketedIsUnfinished(n, "K", q);
    } else if q[1] == "a" {
      BesideNothing(n, "K", "a");
      assert q[..2] == ["K", "a"] && q[..2][1..] == ["a"];
      BracketedBeside(n, "K", q[..2]);
      if |q| == 2 {
        assert q[..2] == q;
        BracketedIsUnfinished(n, "K", q);
      }
    } else {
      NestedBranch(q);
    }
  }

  lemma BesideNothing(nodes: map<string, Node>, gw: string, x: string)
    requires !OtherGate(nodes, gw, x, Convergent) && !OtherGate(nodes, gw, x, Divergent)
    ensures Bracketed(nodes, gw, [x])
  {
    hide OtherGate;
    assert [x][1..] == [];
  }

  /** The ways through the inner pair. */
  lemma NestedBranch(q: seq<string>)
    requires |q| > 1 && q[1] == "J" && NestedSteps(q)
    ensures BracketedTo(NESTED.nodes, "K", "S", q) || (Unfinished(NESTED.nodes, "K", q) && q[|q| - 1] in NESTED.refs)
  {
    var n := NESTED.nodes;
    NestedKinds();
    hide OtherGate, Bracketed, Unfinished;
    BesideNothing(n, "K", "K");
    BracketedNothing(n, "K");
    if |q| <= 3 {
      assert q[..1] == ["K"] && (q[2..] == [] || q[2..] == ["b"] || q[2..] == ["c"]);
      if |q| == 3 {
        BesideNothing(n, "K", q[2]);
        BracketedIsUnfinished(n, "K", q[2..]);
      }
      UnfinishedWhen(n, "K", q, 1);
    } else {
      var inner := q[1..4];
      assert inner[1..2] == [q[2]] && inner[3..] == [] && q[..4][1..] == inner;
      BesideNothing(n, "K", q[2]);
      BracketedAround(n, "K", inner, 2);
      BracketedBeside(n, "K", q[..4]);
      if |q| == 4 {
        assert q[..4] == q;
        BracketedIsUnfinished(n, "K", q);
      }
    }
  }

  // ---- Tagging a whole process ----

  /** Elements under their own ids, those of the process listed once each, gateways with a specification. */
  ghost predicate WellFormed(ids: seq<string>, els: Index) {
    && IdsMatch(els)
    && (forall x | x in ids :: x in els)
    && (forall i, j | 0 <= i < j < |ids| :: ids[i] != ids[j])
    && (forall x | x in els :: els[x].typ.Gateway? ==> els[x].gateway.Some?)
  }

  function Spec(els: Index, x: string): GatewaySpec
    requires x in els && els[x].gateway.Some?
  {
    els[x].gateway.value
  }

  /** One flow in and several out split, several in and one out join; anything else is not supported. */
  function DirectionOf(e: Element, refs: References): (dir: Option<Direction>) {
    var numIn, numOut := |RefsTo(refs, e.id)|, |e.Targets()|;
    if numIn == 1 && numOut > 1 then Some(Divergent)
    else if numIn > 1 && numOut == 1 then Some(Convergent)
    else None
  }

  /** The gateways among the first n of the process have the direction their flows give them. */
  ghost predicate Directed(ids: seq<string>, was: Index, els: Index, refs: References, n: nat)
    requires n <= |ids|
  {
    els.Keys == was.Keys && forall x | x in els :: DirectedAt(was, els, refs, x, x in ids[..n])
  }

  predicate DirectedAt(was: Index, els: Index, refs: References, x: string, listed: bool)
    requires x in was && x in els
  {
    if listed && was[x].typ.Gateway? then
      && was[x].gateway.Some? && DirectionOf(was[x], refs).Some?
      && els[x] == SetDirection(was[x], DirectionOf(was[x], refs).value)
    else els[x] == was[x]
  }

  function FlowGraph(ids: seq<string>, els: Index): (g: Graph)
    ensures g.Keys == els.Keys
  {
    map x | x in els :: if x in ids then els[x].Targets() else []
  }

  /** The join j comes out of the search with one split and no way that escapes it. */
  ghost predicate Resolves(p: Process, j: string, s: string)
  {
    p.Closed() && p.IsJoin(j) && p.Within(j, j, 0, p.bound) && p.Recip(j, j, 0, p.bound) == {s} && s != NULL_MARKER
  }

  /** Matching changes reciprocal ids and expectations, nothing else. */
  predicate SameGate(a: Element, b: Element) {
    && b == a.(gateway := b.gateway)
    && (a.gateway.None? ==> b.gateway.None?)
    && (a.gateway.Some? ==> && b.gateway.Some?
                            && b.gateway.value.kind == a.gateway.value.kind
                            && b.gateway.value.direction == a.gateway.value.direction)
  }

  predicate SameGates(a: Index, b: Index) {
    a.Keys == b.Keys && forall x | x in a :: SameGate(a[x], b[x])
  }

  function SetDirection(e: Element, dir: Direction): (r: Element)
    requires e.gateway.Some?
    ensures r.gateway.Some? && r.typ == e.typ && r.id == e.id && r.Targets() == e.Targets()
  {
    e.(gateway := Some(e.gateway.value.(direction := dir)))
  }

  function SetReciprocal(e: Element, id: string): (r: Element)
    requires e.gateway.Some?
    ensures SameGate(e, r)
  {
    e.(gateway := Some(e.gateway.value.(reciprocalId := id)))
  }

  function SetExpectations(e: Element, ids: seq<string>): (r: Element)
    requires e.gateway.Some?
    ensures SameGate(e, r)
  {
    e.(gateway := Some(e.gateway.value.(fixedExpectations := ids)))
  }

  /** A join that has been matched: to the split it resolves to, or else to what leads to it. */
  ghost predicate MatchedJoin(p: Process, was: Index, els: Index, j: string)
    requires j in was && j in els && was[j].gateway.Some? && els[j].gateway.Some?
  {
    || (exists s :: Resolves(p, j, s) && els[j] == SetReciprocal(was[j], s))
    || ((forall s :: !Resolves(p, j, s)) && els[j] == SetExpectations(was[j], RefsTo(p.refs, j)))
  }

  /** A split once the joins listed have been matched: it points to one of those that resolve to it, if any. */
  ghost predicate MatchedSplit(p: Process, was: Index, els: Index, joins: seq<string>, s: string)
    requires s in was && s in els && was[s].gateway.Some? && els[s].gateway.Some?
  {
    if exists j :: j in joins && j in was && was[j].IsJoin() && Resolves(p, j, s) then
      var r := Spec(els, s).reciprocalId;
      r in joins && r in was && was[r].IsJoin() && Resolves(p, r, s) && els[s] == SetReciprocal(was[s], r)
    else els[s] == was[s]
  }

  ghost predicate JoinDone(p: Process, ids: seq<string>, was: Index, els: Index, n: nat, j: string)
    requires n <= |ids| && j in was && j in els && was[j].gateway.Some? && els[j].gateway.Some?
  {
    if j in ids[..n] then MatchedJoin(p, was, els, j) else els[j] == was[j]
  }

  predicate OnlyGateways(was: Index, els: Index)
    requires was.Keys == els.Keys
  {
    forall x | x in els :: !els[x].typ.Gateway? ==> els[x] == was[x]
  }

  /** What matching the joins among the first n elements has made of the process. */
  ghost predicate Linked(p: Process, ids: seq<string>, was: Index, els: Index, n: nat)
    requires n <= |ids|
  {
    && SameGates(was, els) && OnlyGateways(was, els)
    && (forall j | j in was && was[j].IsJoin() :: GateAt(was, els, j) && JoinDone(p, ids, was, els, n, j))
    && (forall s | s in was && was[s].IsSplit() :: GateAt(was, els, s) && MatchedSplit(p, was, els, ids[..n], s))
  }

  predicate GateAt(was: Index, els: Index, x: string) {
    x in was && x in els && was[x].gateway.Some? && els[x].gateway.Some? && SameGate(was[x], els[x])
  }

  lemma GateAtWhen(was: Index, els: Index, x: string)
    requires SameGates(was, els) && x in was && was[x].gateway.Some?
    ensures GateAt(was, els, x)
  {
    assert SameGate(was[x], els[x]);
  }

  lemma LinkedIs(p: Process, ids: seq<string>, was: Index, els: Index, n: nat, x: string)
    requires n <= |ids| && Linked(p, ids, was, els, n) && x in was
    ensures SameGates(was, els) && OnlyGateways(was, els) && x in els
    ensures was[x].IsJoin() ==> GateAt(was, els, x) && JoinDone(p, ids, was, els, n, x)
    ensures was[x].IsSplit() ==> GateAt(was, els, x) && MatchedSplit(p, was, els, ids[..n], x)
  {
    hide JoinDone, MatchedSplit, GateAt, OnlyGateways;
  }

  lemma SameGatesSameView(a: Index, b: Index)
    requires SameGates(a, b)
    ensures View(a) == View(b)
  {
  }

  class Tagger {
    var els: Index
    var result: set<string>

    constructor (els: Index)
      ensures this.els == els && result == {}
    {
      this.els := els;
      result := {};
    }

    /** `n` is how far the search goes back at most. */
    method RecurseRecip(gw: string, el: string, refs: References, stack: nat, ghost p: Process, ghost n: nat)
      requires p.nodes == View(els) && p.refs == refs && p.Closed()
      requires gw in els && el in els && els[gw].typ.Gateway? && p.Within(gw, el, stack, n)
      requires forall x | x in els :: els[x].typ.Gateway? ==> els[x].gateway.Some?
      modifies this`result
      ensures result == old(result) + p.Recip(gw, el, stack, n)
      decreases n, 1
    {
      hide Process.Closed, Process.BackGraph, Process.Within, Process.RecipAll;
      p.RecipIs(gw, el, stack, n, el);
      ViewAt(els, el);
      ViewAt(els, gw);
      var depth := stack;
      if gw != el && els[el].typ == Gateway && els[gw].gateway.value.kind == els[el].gateway.value.kind {
        if els[el].gateway.value.direction == Convergent {
          depth := depth + 1;
        }
        if els[el].gateway.value.direction == Divergent {
          if depth == 0 {
            result := result + {el};
            return;
          }
          depth := depth - 1;
        }
      }
      hide View;
      assert depth == stack + p.Delta(gw, el) && !p.Stops(gw, el, stack);
      if el !in refs {
        result := result + {NULL_MARKER};
        return;
      }
      assert p.Recip(gw, el, stack, n) == p.RecipAll(gw, refs[el], depth, n - 1);
      VisitAll(gw, el, refs, stack, depth, p, n);
    }

    method VisitAll(gw: string, el: string, refs: References, stack: nat, depth: nat, ghost p: Process, ghost n: nat)
      requires p.nodes == View(els) && p.refs == refs && p.Closed()
      requires forall x | x in els :: els[x].typ.Gateway? ==> els[x].gateway.Some?
      requires gw in els && el in els && els[gw].typ.Gateway? && p.Within(gw, el, stack, n) && el in refs
      requires !p.Stops(gw, el, stack) && depth == stack + p.Delta(gw, el) && n > 0
      modifies this`result
      ensures result == old(result) + p.RecipAll(gw, refs[el], depth, n - 1)
      decreases n, 0
    {
      hide View, Process.Closed, Process.BackGraph, Process.Within, Process.Recip, Process.Stops, Process.Delta;
      for i := 0 to |refs[el]|
        invariant result == old(result) + p.RecipAll(gw, refs[el][..i], depth, n - 1)
      {
        p.BackStep(gw, el, stack, n, i);
        assert refs[el][..i + 1][..i] == refs[el][..i];
        RecurseRecip(gw, refs[el][i], refs, depth, p, n - 1);
      }
      assert refs[el][..|refs[el]|] == refs[el];
    }

    method TagReciprocal(gw: string, refs: References, ghost p: Process)
      requires p.nodes == View(els) && p.refs == refs && p.Closed() && gw in els && els[gw].IsJoin() && gw in refs
      requires p.Within(gw, gw, 0, p.bound)
      requires forall x | x in els :: els[x].typ.Gateway? ==> els[x].gateway.Some?
      modifies this
      ensures Retagged(p, old(els), els, gw)
    {
      hide Process.Closed, Process.Within, Process.Recip, View, Retagged, Resolves;
      ghost var was := els;
      JoinViewed(p, els, gw);
      result := {};
      RecurseRecip(gw, gw, refs, 0, p, p.bound);
      p.RecipNotEmpty(gw, gw, 0, p.bound);
      if NULL_MARKER in result || |result| > 1 {
        NotResolved(p, gw);
        els := els[gw := SetExpectations(els[gw], refs[gw])];
        RetaggedAlone(p, was, els, gw);
        return;
      }
      var only :| only in result;
      OnlyOne(result, only);
      ResolvesWhen(p, gw, only);
      ResolvesToSplit(p, els, gw, only);
      els := els[gw := SetReciprocal(els[gw], only)];
      els := els[only := SetReciprocal(els[only], gw)];
      RetaggedBoth(p, was, els, gw, only);
    }

    /** Tags a whole process. It fails if and only if some gateway neither splits nor joins. Otherwise directions
        follow the flows, every join is settled, splits and joins point at each other, and the reciprocal of a join is
        the split that encloses it. */
    method TagProcess(ids: seq<string>) returns (ok: bool)
      requires WellFormed(ids, els) && (AllDirectable(ids, els) ==> SearchesEnd(ids, els))
      requires forall x | x in els && els[x].gateway.Some? :: Spec(els, x).reciprocalId == ""
      modifies this
      ensures ok <==> AllDirectable(ids, old(els))
      ensures ok ==> SameButGateways(old(els), els)
      ensures ok ==> forall x | x in ids && els[x].typ.Gateway? :: DirectedByFlows(ids, els, els, x)
      ensures ok ==> forall j | j in ids && els[j].IsJoin() :: Settled(ids, els, j)
      ensures ok ==> forall s | s in els && els[s].IsSplit() && Spec(els, s).reciprocalId != "" ::
              PointedBack(ids, els, s)
      ensures ok ==> forall j, s | j in ids && els[j].IsJoin() && s != "" && s != NULL_MARKER ::
              Spec(els, j).reciprocalId == s <==> EnclosedBy(ids, old(els), j, s)
    {
      hide SearchesEndWithin, Process.WellFormed, Linked, FlowGraph, IsReferences, View, Directed, DirectionOf,
           DirectedByFlows, Settled, PointedBack, EnclosedBy,
           SameButGateways, Directable;
      ghost var was := els;
      var refs := GetElementIdReferences(ids, els);
      ghost var dir;
      ghost var bound: nat :| AllDirectable(ids, els) ==> SearchesEndWithin(ids, els, bound);
      ok, dir := TagGateways(ids, refs, bound);
      DirectableIff(ids, was, refs);
      if ok {
        TaggedMeans(Process(View(dir), refs, bound), ids, was, dir, els, refs);
        TaggedReciprocals(Process(View(dir), refs, bound), ids, was, dir, els, refs);
      }
    }

    /** Fails if and only if some gateway neither splits nor joins. Otherwise `dir` is the process with the
        directions filled in, and the joins have been matched in it. */
    method TagGateways(ids: seq<string>, refs: References, ghost bound: nat) returns (ok: bool, ghost dir: Index)
      requires WellFormed(ids, els) && IsReferences(refs, ids, els)
      requires AllDirectable(ids, els) ==> SearchesEndWithin(ids, els, bound)
      modifies this
      ensures ok <==> forall x | x in ids && old(els)[x].typ.Gateway? :: DirectionOf(old(els)[x], refs).Some?
      ensures ok ==> forall x | x in ids && old(els)[x].typ.Gateway? :: DirectedByFlows(ids, old(els), dir, x)
      ensures ok ==> && Directed(ids, old(els), dir, refs, |ids|) && Process(View(dir), refs, bound).WellFormed()
                     && Linked(Process(View(dir), refs, bound), ids, dir, els, |ids|)
    {
      hide SearchesEndWithin, Process.WellFormed, Linked, FlowGraph, IsReferences, View, Directed, DirectionOf,
        DirectedByFlows;
      ghost var was := els;
      ok := SetDirections(ids, refs);
      dir := els;
      DirectableIff(ids, was, refs);
      if ok {
        ReadyToMatch(ids, was, dir, refs, bound);
        DirectionsFollowFlows(ids, was, dir, refs);
        MatchJoins(ids, refs, Process(View(dir), refs, bound));
      }
    }

    method SetDirections(ids: seq<string>, refs: References) returns (ok: bool)
      requires WellFormed(ids, els)
      modifies this`els
      ensures ok <==> forall x | x in ids && old(els)[x].typ.Gateway? :: DirectionOf(old(els)[x], refs).Some?
      ensures ok ==> Directed(ids, old(els), els, refs, |ids|)
    {
      hide DirectionOf, SetDirection, Directed;
      DirectedNone(ids, els, refs);
      for i := 0 to |ids|
        invariant Directed(ids, old(els), els, refs, i)
      {
        ghost var before := els;
        NotYetDirected(ids, old(els), els, refs, i);
        if els[ids[i]].typ == Gateway {
          var dir := FindDirection(els[ids[i]], refs);
          if dir.None? {
            return false;
          }
          els := els[ids[i] := SetDirection(els[ids[i]], dir.value)];
        }
        DirectedStep(ids, old(els), before, els, refs, i);
      }
      AllDirected(ids, old(els), els, refs);
      ok := true;
    }

    method FindDirection(el: Element, refs: References) returns (dir: Option<Direction>)
      ensures dir == DirectionOf(el, refs)
    {
      var numIn := if el.id in refs then |refs[el.id]| else 0;
      var numOut := if el.outbound.Some? then |el.outbound.value| else 0;
      if numIn == 1 && numOut > 1 {
        dir := Some(Divergent);
      } else if numIn > 1 && numOut == 1 {
        dir := Some(Convergent);
      } else {
        dir := None;
      }
    }

    method MatchJoins(ids: seq<string>, refs: References, ghost p: Process)
      requires p.nodes == View(els) && p.refs == refs && p.WellFormed() && (forall x | x in ids :: x in els)
      requires forall x | x in els :: els[x].typ.Gateway? ==> els[x].gateway.Some?
      requires forall x | x in ids && els[x].IsJoin() :: x in refs
      requires forall i, j | 0 <= i < j < |ids| :: ids[i] != ids[j]
      modifies this
      ensures Linked(p, ids, old(els), els, |ids|)
    {
      hide Process.WellFormed, View, Linked, Retagged;
      ghost var dir := els;
      LinkedNone(p, ids, dir);
      for i := 0 to |ids|
        invariant Linked(p, ids, dir, els, i)
      {
        LinkedGates(p, ids, dir, els, i);
        ghost var before := els;
        if els[ids[i]].typ == Gateway && els[ids[i]].gateway.value.direction == Convergent {
          JoinViewed(p, els, ids[i]);
          JoinReady(p, ids[i]);
          TagReciprocal(ids[i], refs, p);
        }
        LinkedStep(p, ids, dir, before, els, i);
      }
    }
  }

  lemma DirectedNone(ids: seq<string>, els: Index, refs: References)
    ensures Directed(ids, els, els, refs, 0)
  {
  }

  lemma NotYetDirected(ids: seq<string>, was: Index, els: Index, refs: References, n: nat)
    requires WellFormed(ids, was) && n < |ids| && Directed(ids, was, els, refs, n)
    ensures ids[n] in was && ids[n] in els && els[ids[n]] == was[ids[n]]
    ensures was[ids[n]].typ.Gateway? ==> was[ids[n]].gateway.Some?
  {
  }

  lemma DirectedStep(ids: seq<string>, was: Index, els: Index, next: Index, refs: References, n: nat)
    requires n < |ids| && Directed(ids, was, els, refs, n) && ids[n] in els && ids[n] in was
    requires els[ids[n]] == was[ids[n]]
    requires if was[ids[n]].typ.Gateway? then
               && was[ids[n]].gateway.Some? && DirectionOf(was[ids[n]], refs).Some?
               && next == els[ids[n] := SetDirection(was[ids[n]], DirectionOf(was[ids[n]], refs).value)]
             else next == els
    ensures Directed(ids, was, next, refs, n + 1)
  {
    hide DirectionOf, SetDirection;
    assert ids[..n + 1] == ids[..n] + [ids[n]];
    forall x | x in next
      ensures DirectedAt(was, next, refs, x, x in ids[..n + 1])
    {
      assert DirectedAt(was, els, refs, x, x in ids[..n]);
    }
    hide DirectedAt;
  }

  lemma AllDirected(ids: seq<string>, was: Index, els: Index, refs: References)
    requires Directed(ids, was, els, refs, |ids|) && forall x | x in ids :: x in was
    ensures forall x | x in ids && was[x].typ.Gateway? :: DirectionOf(was[x], refs).Some?
  {
    hide DirectionOf, SetDirection;
    assert ids[..|ids|] == ids;
  }

  /** One join has been matched. */
  ghost predicate Retagged(p: Process, was: Index, els: Index, gw: string)
    requires gw in was && was[gw].gateway.Some?
  {
    || (exists s :: && Resolves(p, gw, s) && s in was && s != gw && was[s].IsSplit()
                    && els == was[gw := SetReciprocal(was[gw], s)][s := SetReciprocal(was[s], gw)])
    || ((forall s :: !Resolves(p, gw, s)) && els == was[gw := SetExpectations(was[gw], RefsTo(p.refs, gw))])
  }

  lemma OnlyOne(r: set<string>, x: string)
    requires x in r && |r| <= 1
    ensures r == {x}
  {
    SubsetSize({x}, r);
    if y :| y in r && y != x {
      SubsetSize({x, y}, r);
    }
  }

  lemma JoinReady(p: Process, gw: string)
    requires p.WellFormed() && p.IsJoin(gw)
    ensures p.Closed() && p.Within(gw, gw, 0, p.bound)
  {
    hide Process.Within, Process.Closed;
  }

  lemma ViewAt(els: Index, x: string)
    requires x in els && (els[x].typ.Gateway? ==> els[x].gateway.Some?)
    ensures x in View(els)
    ensures View(els)[x] == if els[x].typ.Gateway? then Gate(Spec(els, x).kind, Spec(els, x).direction) else Plain
  {
  }

  lemma JoinViewed(p: Process, els: Index, gw: string)
    requires p.nodes == View(els) && gw in els && els[gw].IsJoin()
    ensures p.IsJoin(gw)
  {
    ViewAt(els, gw);
  }

  lemma RetaggedAlone(p: Process, was: Index, els: Index, gw: string)
    requires gw in was && was[gw].gateway.Some? && (forall s :: !Resolves(p, gw, s)) && gw in p.refs
    requires els == was[gw := SetExpectations(was[gw], p.refs[gw])]
    ensures Retagged(p, was, els, gw)
  {
    hide Resolves;
  }

  lemma RetaggedBoth(p: Process, was: Index, els: Index, gw: string, s: string)
    requires gw in was && was[gw].gateway.Some? && Resolves(p, gw, s) && s in was && s != gw && was[s].IsSplit()
    requires els == was[gw := SetReciprocal(was[gw], s)][s := SetReciprocal(was[s], gw)]
    ensures Retagged(p, was, els, gw)
  {
    hide Resolves;
  }

  lemma ResolvesWhen(p: Process, gw: string, s: string)
    requires p.Closed() && p.IsJoin(gw) && p.Within(gw, gw, 0, p.bound)
    requires p.Recip(gw, gw, 0, p.bound) == {s} && s != NULL_MARKER
    ensures Resolves(p, gw, s)
  {
    hide Process.Closed, Process.Within, Process.Recip;
  }

  lemma NotResolved(p: Process, gw: string)
    requires p.IsJoin(gw) && (NULL_MARKER in p.Recip(gw, gw, 0, p.bound) || |p.Recip(gw, gw, 0, p.bound)| > 1)
    ensures forall s :: !Resolves(p, gw, s)
  {
    hide Process.Closed, Process.Within, Process.Recip;
  }

  lemma ResolvesIs(p: Process, gw: string, s: string)
    requires Resolves(p, gw, s)
    ensures p.Closed() && p.IsJoin(gw) && p.Within(gw, gw, 0, p.bound)
    ensures gw in p.nodes && p.Recip(gw, gw, 0, p.bound) == {s} && s != NULL_MARKER
  {
    hide Process.Closed, Process.Within, Process.Recip;
  }

  lemma ResolvesToSplit(p: Process, els: Index, gw: string, s: string)
    requires p.nodes == View(els) && Resolves(p, gw, s)
    ensures s in els && s != gw && els[s].IsSplit() && gw in p.nodes && s in p.nodes && p.SameSplit(gw, s)
  {
    ResolvesIs(p, gw, s);
    hide Resolves, Process.Recip, Process.Within, Process.Closed, View;
    var q := p.RecipSound(gw, gw, 0, p.bound, s);
    MetIsSplit(p, els, gw, s);
  }

  lemma MetIsSplit(p: Process, els: Index, gw: string, s: string)
    requires p.nodes == View(els) && gw in p.nodes && s in p.nodes && p.SameSplit(gw, s)
    ensures s in els && s != gw && els[s].IsSplit()
  {
  }

  lemma FlowReversed(ids: seq<string>, was: Index, nodes: map<string, Node>, refs: References, x: string, y: string)
    requires (forall z | z in ids :: z in was) && IsReferences(refs, ids, was) && nodes.Keys == was.Keys
    ensures Edge(FlowGraph(ids, was), x, y) <==> Edge(Process(nodes, refs, 0).BackGraph(), y, x)
  {
    hide Inbound;
    InboundIff(ids, was, y, x);
    assert RefsTo(refs, y) == Inbound(ids, was, y);
  }

  /** The elements with the directions that their flows give the gateways of the process. */
  ghost function FlowView(ids: seq<string>, els: Index): (nodes: map<string, Node>)
    requires forall x | x in ids :: x in els
    ensures nodes.Keys == els.Keys
  {
    map x | x in els ::
      if els[x].typ.Gateway? && els[x].gateway.Some? then
        Gate(Spec(els, x).kind,
             if x in ids && Directable(ids, els, x) then (if |Inbound(ids, els, x)| == 1 then Divergent else Convergent)
             else Spec(els, x).direction)
      else Plain
  }

  ghost function FlowRefs(ids: seq<string>, els: Index): References
    requires forall x | x in ids :: x in els
  {
    map t | t in (set x, y | x in ids && y in els[x].Targets() :: y) :: Inbound(ids, els, t)
  }

  /** The search for the opening gateway ends for every join: going back from it, the ways along which every split of
      its type closes a join of that type have no more than `bound` elements. */
  ghost predicate SearchesEndWithin(ids: seq<string>, els: Index, bound: nat)
    requires forall x | x in ids :: x in els
  {
    Process(FlowView(ids, els), FlowRefs(ids, els), bound).SearchesEnd()
  }

  ghost predicate SearchesEnd(ids: seq<string>, els: Index)
    requires forall x | x in ids :: x in els
  {
    exists bound: nat :: SearchesEndWithin(ids, els, bound)
  }

  lemma RefsAreFlows(ids: seq<string>, els: Index, refs: References)
    requires (forall x | x in ids :: x in els) && IsReferences(refs, ids, els)
    ensures refs == FlowRefs(ids, els)
  {
    hide Inbound;
    var fs := FlowRefs(ids, els);
    forall t
      ensures t in refs <==> t in fs
      ensures t in refs ==> refs[t] == fs[t]
    {
      assert RefsTo(refs, t) == Inbound(ids, els, t);
      if t in refs {
        InboundIff(ids, els, t, refs[t][0]);
      }
      if x :| x in ids && t in els[x].Targets() {
        InboundIff(ids, els, t, x);
      }
    }
  }

  lemma DirectedView(ids: seq<string>, was: Index, dir: Index, refs: References)
    requires WellFormed(ids, was) && IsReferences(refs, ids, was) && Directed(ids, was, dir, refs, |ids|)
    ensures View(dir) == FlowView(ids, was)
  {
    hide Directed, View, FlowView;
    DirectedKeys(ids, was, dir, refs);
    forall x | x in was
      ensures View(dir)[x] == FlowView(ids, was)[x]
    {
      DirectedViewAt(ids, was, dir, refs, x);
    }
    hide WellFormed, IsReferences;
  }

  lemma DirectedViewAt(ids: seq<string>, was: Index, dir: Index, refs: References, x: string)
    requires WellFormed(ids, was) && IsReferences(refs, ids, was) && Directed(ids, was, dir, refs, |ids|) && x in was
    ensures x in dir && View(dir)[x] == FlowView(ids, was)[x]
  {
    DirectedThere(ids, was, dir, refs, x);
    hide Inbound, TargetIds, Directed;
    assert RefsTo(refs, was[x].id) == Inbound(ids, was, was[x].id);
  }

  lemma DirectedThere(ids: seq<string>, was: Index, dir: Index, refs: References, x: string)
    requires Directed(ids, was, dir, refs, |ids|) && x in was
    ensures x in dir && (x !in ids || !was[x].typ.Gateway? ==> dir[x] == was[x])
    ensures x in ids && was[x].typ.Gateway? ==> && was[x].gateway.Some? && DirectionOf(was[x], refs).Some?
                                                && dir[x] == SetDirection(was[x], DirectionOf(was[x], refs).value)
  {
    hide DirectionOf, SetDirection;
    assert ids[..|ids|] == ids;
  }

  /** A process without cycles is one on which the searches end. */
  lemma AcyclicSearchesEnd(ids: seq<string>, els: Index, refs: References)
    requires (forall x | x in ids :: x in els) && IsReferences(refs, ids, els) && Acyclic(FlowGraph(ids, els))
    ensures SearchesEnd(ids, els)
  {
    hide Acyclic, Inbound, FlowGraph, IsReferences, FlowView, Process.Within;
    RefsAreFlows(ids, els, refs);
    var p := Process(FlowView(ids, els), FlowRefs(ids, els), |els|);
    forall x, y
      ensures Edge(FlowGraph(ids, els), x, y) <==> Edge(p.BackGraph(), y, x)
    {
      FlowReversed(ids, els, p.nodes, refs, x, y);
    }
    ReverseAcyclic(FlowGraph(ids, els), p.BackGraph());
    forall j | p.IsJoin(j)
      ensures p.Within(j, j, 0, |els|)
    {
      p.AcyclicEnds(j, j, 0);
      assert |p.nodes.Keys| == |els.Keys|;
    }
    assert SearchesEndWithin(ids, els, |els|);
  }

  /** An exclusive split that leads back to the join before it: the search from the join is cut there. */
  const LOOP := Process(map["a" := Plain, "j" := Gate(Exclusive, Convergent), "s" := Gate(Exclusive, Divergent)],
                        map["j" := ["a", "s"], "s" := ["j"]], 2)

  /** So is one with such a loop. */
  lemma LoopSearchEnds()
    ensures LOOP.WellFormed() && !Acyclic(LOOP.BackGraph())
  {
    var g := LOOP.BackGraph();
    assert g["j"] == ["a", "s"] && g["s"] == ["j"] && g["a"] == [];
    assert Edge(g, "j", "s") && WalkBetween(g, ["s", "j"], "s", "j");
    forall q | LOOP.Path(q) && q[0] == "j" && |q| > 2
      ensures !LOOP.Matched("j", q, 0)
    {
      LoopIsCut(q);
    }
  }

  lemma LoopIsCut(q: seq<string>)
    requires LOOP.Path(q) && q[0] == "j" && |q| > 2
    ensures !LOOP.Matched("j", q, 0)
  {
    var g := LOOP.BackGraph();
    assert g["j"] == ["a", "s"] && g["a"] == [];
    assert Edge(g, q[0], q[0 + 1]) && Edge(g, q[1], q[1 + 1]);
    assert q[1] == "s" && LOOP.SameSplit("j", q[1]);
    assert q[..1] == ["j"] && LOOP.Balance("j", q[..1]) == 0;
  }

  /** The references of a process are its flows reversed. */
  lemma ReadyToMatch(ids: seq<string>, was: Index, dir: Index, refs: References, bound: nat)
    requires WellFormed(ids, was) && IsReferences(refs, ids, was) && SearchesEndWithin(ids, was, bound)
    requires Directed(ids, was, dir, refs, |ids|)
    ensures Process(View(dir), refs, bound).WellFormed() && dir.Keys == was.Keys
    ensures forall x | x in ids && dir[x].IsJoin() :: x in refs
    ensures forall x | x in dir :: dir[x].typ.Gateway? ==> dir[x].gateway.Some?
  {
    hide Inbound, View, FlowView, FlowRefs, Process.SearchesEnd, Directed, DirectionOf, SetDirection, TargetIds;
    var p := Process(View(dir), refs, bound);
    DirectedKeys(ids, was, dir, refs);
    RefsAreFlows(ids, was, refs);
    DirectedView(ids, was, dir, refs);
    forall t, y | t in refs && y in refs[t]
      ensures y in p.nodes
    {
      assert RefsTo(refs, t) == Inbound(ids, was, t);
      InboundIff(ids, was, t, y);
    }
    forall x | x in dir
      ensures dir[x].typ.Gateway? ==> dir[x].gateway.Some?
      ensures x in ids && dir[x].IsJoin() ==> x in refs
    {
      DirectedThere(ids, was, dir, refs, x);
      if x in ids && dir[x].IsJoin() {
        JoinHasRefs(was[x], refs);
      }
    }
  }

  lemma DirectedKeys(ids: seq<string>, was: Index, dir: Index, refs: References)
    requires Directed(ids, was, dir, refs, |ids|)
    ensures dir.Keys == was.Keys
  {
    hide DirectionOf, SetDirection;
  }

  lemma JoinHasRefs(e: Element, refs: References)
    requires e.gateway.Some? && DirectionOf(e, refs).Some?
    requires SetDirection(e, DirectionOf(e, refs).value).IsJoin()
    ensures e.id in refs
  {
  }

  /** The gateway splits or joins, as the numbers of flows into and out of it say. */
  ghost predicate DirectedByFlows(ids: seq<string>, was: Index, dir: Index, x: string)
    requires (forall y | y in ids :: y in was) && x in was
  {
    var numIn, numOut := |Inbound(ids, was, x)|, |was[x].Targets()|;
    && x in dir
    && (dir[x].IsSplit() <==> numIn == 1 && numOut > 1)
    && (dir[x].IsJoin() <==> numIn > 1 && numOut == 1)
  }

  lemma DirectionsFollowFlows(ids: seq<string>, was: Index, dir: Index, refs: References)
    requires WellFormed(ids, was) && IsReferences(refs, ids, was) && Directed(ids, was, dir, refs, |ids|)
    ensures forall x | x in ids && was[x].typ.Gateway? :: DirectedByFlows(ids, was, dir, x)
  {
    hide Inbound;
    assert ids[..|ids|] == ids;
    forall x | x in ids && was[x].typ.Gateway?
      ensures DirectedByFlows(ids, was, dir, x)
    {
      assert RefsTo(refs, was[x].id) == Inbound(ids, was, was[x].id);
    }
  }

  lemma LinkedNone(p: Process, ids: seq<string>, dir: Index)
    ensures Linked(p, ids, dir, dir, 0)
  {
    hide Resolves;
  }

  lemma LinkedGates(p: Process, ids: seq<string>, was: Index, els: Index, n: nat)
    requires n <= |ids| && Linked(p, ids, was, els, n)
    ensures SameGates(was, els) && View(was) == View(els)
  {
    hide JoinDone, MatchedSplit, GateAt, OnlyGateways;
    SameGatesSameView(was, els);
  }

  lemma LinkedStep(p: Process, ids: seq<string>, was: Index, els: Index, next: Index, n: nat)
    requires n < |ids| && Linked(p, ids, was, els, n) && ids[n] in was
    requires forall i, j | 0 <= i < j < |ids| :: ids[i] != ids[j]
    requires if was[ids[n]].IsJoin() then ids[n] in els && els[ids[n]].gateway.Some? && Retagged(p, els, next, ids[n])
             else next == els
    ensures Linked(p, ids, was, next, n + 1)
  {
    hide Linked, MatchedSplit, JoinDone, SameGates, OnlyGateways, Retagged;
    LinkedIs(p, ids, was, els, n, ids[n]);
    if was[ids[n]].IsJoin() {
      RetaggedGates(p, was, els, next, ids[n]);
    }
    forall j | j in was && was[j].IsJoin()
      ensures GateAt(was, next, j) && JoinDone(p, ids, was, next, n + 1, j)
    {
      RetaggedJoin(p, ids, was, els, next, n, j);
    }
    forall s | s in was && was[s].IsSplit()
      ensures GateAt(was, next, s) && MatchedSplit(p, was, next, ids[..n + 1], s)
    {
      RetaggedSplit(p, ids, was, els, next, n, s);
    }
    LinkedWhen(p, ids, was, next, n + 1);
  }

  lemma LinkedWhen(p: Process, ids: seq<string>, was: Index, els: Index, n: nat)
    requires n <= |ids| && SameGates(was, els) && OnlyGateways(was, els)
    requires forall j | j in was && was[j].IsJoin() :: GateAt(was, els, j) && JoinDone(p, ids, was, els, n, j)
    requires forall s | s in was && was[s].IsSplit() :: GateAt(was, els, s) && MatchedSplit(p, was, els, ids[..n], s)
    ensures Linked(p, ids, was, els, n)
  {
    hide MatchedSplit, JoinDone, GateAt, SameGates, OnlyGateways;
  }

  lemma RetaggedGates(p: Process, was: Index, els: Index, next: Index, gw: string)
    requires SameGates(was, els) && OnlyGateways(was, els) && gw in els && els[gw].IsJoin()
    requires Retagged(p, els, next, gw)
    ensures SameGates(was, next) && OnlyGateways(was, next)
  {
    hide Retagged;
    forall x | x in els
      ensures x in next && SameGate(was[x], next[x]) && (!next[x].typ.Gateway? ==> next[x] == was[x])
    {
      assert SameGate(was[x], els[x]);
      RetaggedGate(p, els, next, gw, x);
    }
    RetaggedKeys(p, els, next, gw);
  }

  lemma RetaggedKeys(p: Process, els: Index, next: Index, gw: string)
    requires gw in els && els[gw].gateway.Some? && Retagged(p, els, next, gw)
    ensures next.Keys == els.Keys
  {
    hide Resolves, SetReciprocal, SetExpectations;
  }

  lemma RetaggedGate(p: Process, els: Index, next: Index, gw: string, x: string)
    requires gw in els && els[gw].IsJoin() && Retagged(p, els, next, gw) && x in els
    ensures x in next && SameGate(els[x], next[x]) && (!next[x].typ.Gateway? ==> next[x] == els[x])
  {
    hide Resolves;
  }

  /** Matching one join touches that join and the split it resolves to. */
  lemma RetaggedAt(p: Process, els: Index, next: Index, gw: string, x: string)
    requires gw in els && els[gw].gateway.Some? && Retagged(p, els, next, gw) && x in els && x != gw
    ensures x in next
    ensures Resolves(p, gw, x) ==> els[x].IsSplit() && next[x] == SetReciprocal(els[x], gw)
    ensures !Resolves(p, gw, x) ==> next[x] == els[x]
  {
    hide SetReciprocal, SetExpectations;
    if s :| Resolves(p, gw, s) && s in els && s != gw && els[s].IsSplit()
            && next == els[gw := SetReciprocal(els[gw], s)][s := SetReciprocal(els[s], gw)] {
      assert Resolves(p, gw, x) ==> x in {s};
    }
  }

  lemma RetaggedJoin(p: Process, ids: seq<string>, was: Index, els: Index, next: Index, n: nat, j: string)
    requires n < |ids| && Linked(p, ids, was, els, n) && SameGates(was, next) && ids[n] in was && j in was
    requires was[j].IsJoin()
    requires forall i, k | 0 <= i < k < |ids| :: ids[i] != ids[k]
    requires if was[ids[n]].IsJoin() then ids[n] in els && els[ids[n]].gateway.Some? && Retagged(p, els, next, ids[n])
             else next == els
    ensures GateAt(was, next, j) && JoinDone(p, ids, was, next, n + 1, j)
  {
    hide Linked, Resolves, MatchedSplit, SetReciprocal, SetExpectations, SameGates, OnlyGateways;
    LinkedIs(p, ids, was, els, n, j);
    GateAtWhen(was, next, j);
    assert ids[..n + 1] == ids[..n] + [ids[n]];
    if j == ids[n] {
      FreshAt(ids, n);
    } else if was[ids[n]].IsJoin() {
      RetaggedAt(p, els, next, ids[n], j);
    }
  }

  lemma FreshAt(ids: seq<string>, n: nat)
    requires n < |ids| && forall i, k | 0 <= i < k < |ids| :: ids[i] != ids[k]
    ensures ids[n] !in ids[..n]
  {
  }

  lemma RetaggedSplit(p: Process, ids: seq<string>, was: Index, els: Index, next: Index, n: nat, s: string)
    requires n < |ids| && Linked(p, ids, was, els, n) && SameGates(was, next) && ids[n] in was && s in was
    requires was[s].IsSplit()
    requires if was[ids[n]].IsJoin() then ids[n] in els && els[ids[n]].gateway.Some? && Retagged(p, els, next, ids[n])
             else next == els
    ensures GateAt(was, next, s) && MatchedSplit(p, was, next, ids[..n + 1], s)
  {
    hide Linked, Retagged, Resolves, SameGates, OnlyGateways, JoinDone;
    LinkedIs(p, ids, was, els, n, s);
    GateAtWhen(was, next, s);
    assert ids[..n + 1] == ids[..n] + [ids[n]];
    if was[ids[n]].IsJoin() {
      RetaggedAt(p, els, next, ids[n], s);
    }
  }

  // ---- What tagging promises ----

  /** A split that points to a join is pointed to by it, also when several joins resolve to the split. */
  lemma ReciprocalsPointBack(p: Process, ids: seq<string>, was: Index, els: Index, s: string)
    requires p.nodes == View(was) && Linked(p, ids, was, els, |ids|)
    requires s in was && was[s].IsSplit() && Spec(was, s).reciprocalId == "" && s in els && els[s].gateway.Some?
    requires Spec(els, s).reciprocalId != ""
    ensures var r := Spec(els, s).reciprocalId;
            r in ids && r in els && els[r].IsJoin() && Spec(els, r).kind == Spec(els, s).kind
              && Spec(els, r).reciprocalId == s
  {
    hide Linked, Resolves, View;
    assert ids[..|ids|] == ids;
    LinkedIs(p, ids, was, els, |ids|, s);
    var r := Spec(els, s).reciprocalId;
    LinkedIs(p, ids, was, els, |ids|, r);
    JoinPoints(p, was, els, r, s);
    ResolvesToSplit(p, was, r, s);
    SameKind(p, was, r, s);
  }

  lemma JoinPoints(p: Process, was: Index, els: Index, j: string, s: string)
    requires GateAt(was, els, j) && MatchedJoin(p, was, els, j) && Resolves(p, j, s)
    ensures els[j] == SetReciprocal(was[j], s)
  {
    hide Resolves, SetExpectations, SetReciprocal, SameGate;
    ResolvesIs(p, j, s);
    forall t | Resolves(p, j, t)
      ensures t == s
    {
      ResolvesIs(p, j, t);
      assert t in {s};
    }
  }

  lemma SameKind(p: Process, was: Index, gw: string, s: string)
    requires p.nodes == View(was) && gw in p.nodes && s in p.nodes && p.SameSplit(gw, s)
    requires gw in was && s in was && was[gw].gateway.Some? && was[s].gateway.Some?
    ensures Spec(was, gw).kind == Spec(was, s).kind
  {
  }

  /** A join of the process ends up with the elements that lead to it as its expectations, or with a split of its
      own type as its reciprocal which lies on every way to it from an element nothing leads to. */
  lemma JoinsSettled(p: Process, ids: seq<string>, was: Index, els: Index, j: string)
    requires (forall x | x in ids :: x in was) && IsReferences(p.refs, ids, was)
    requires p.nodes == View(was) && Linked(p, ids, was, els, |ids|)
    requires j in ids && was[j].IsJoin() && j in els && els[j].gateway.Some?
    ensures || els[j] == SetExpectations(was[j], Inbound(ids, was, j))
            || var s := Spec(els, j).reciprocalId;
               && els[j] == SetReciprocal(was[j], s)
               && s in els && els[s].IsSplit() && Spec(els, s).kind == Spec(els, j).kind
               && forall w | WayTo(ids, was, w, j) :: s in w[..|w| - 1]
  {
    hide Linked, Resolves, WayTo, Inbound, View, RefsTo;
    assert ids[..|ids|] == ids;
    LinkedIs(p, ids, was, els, |ids|, j);
    if s :| Resolves(p, j, s) && els[j] == SetReciprocal(was[j], s) {
      ResolvesToSplit(p, was, j, s);
      LinkedIs(p, ids, was, els, |ids|, s);
      SameKind(p, was, j, s);
      forall w | WayTo(ids, was, w, j)
        ensures s in w[..|w| - 1]
      {
        Dominates(p, ids, was, j, s, w);
      }
    } else {
      assert RefsTo(p.refs, j) == Inbound(ids, was, j);
    }
  }

  /** A way along the flows from an element nothing leads to. */
  predicate WayTo(ids: seq<string>, els: Index, w: seq<string>, j: string)
    requires forall x | x in ids :: x in els
    ensures WayTo(ids, els, w, j) ==> w != []
  {
    IsWalk(FlowGraph(ids, els), w) && Inbound(ids, els, w[0]) == [] && w[|w| - 1] == j
  }

  lemma Dominates(p: Process, ids: seq<string>, els: Index, j: string, s: string, w: seq<string>)
    requires (forall x | x in ids :: x in els) && IsReferences(p.refs, ids, els)
    requires p.nodes == View(els) && Resolves(p, j, s) && WayTo(ids, els, w, j)
    ensures s in w[..|w| - 1]
  {
    hide Resolves, Process.Closed, Process.Within, Process.Recip, View, WayTo, Process.BackGraph;
    ResolvesIs(p, j, s);
    WayBack(p, ids, els, j, w);
    p.ReciprocalDominates(j, s, Reversed(w));
    InReversed(w, s);
  }

  /** A way along the flows, read backwards, is a way of the search. */
  lemma WayBack(p: Process, ids: seq<string>, els: Index, j: string, w: seq<string>)
    requires (forall x | x in ids :: x in els) && IsReferences(p.refs, ids, els)
    requires p.nodes.Keys == els.Keys && WayTo(ids, els, w, j)
    ensures w != [] && p.Path(Reversed(w)) && Reversed(w)[0] == j && Reversed(w)[|w| - 1] !in p.refs
  {
    hide FlowGraph, Inbound, Process.BackGraph;
    forall x, y | Edge(FlowGraph(ids, els), x, y)
      ensures Edge(p.BackGraph(), y, x)
    {
      BackEdge(p, ids, els, x, y);
    }
    ReverseWalk(FlowGraph(ids, els), p.BackGraph(), w);
    assert RefsTo(p.refs, w[0]) == Inbound(ids, els, w[0]);
  }

  lemma BackEdge(p: Process, ids: seq<string>, els: Index, x: string, y: string)
    requires (forall z | z in ids :: z in els) && IsReferences(p.refs, ids, els)
    requires p.nodes.Keys == els.Keys && Edge(FlowGraph(ids, els), x, y)
    ensures Edge(p.BackGraph(), y, x)
  {
    FlowReversed(ids, els, p.nodes, p.refs, x, y);
  }

  lemma InReversed(w: seq<string>, s: string)
    requires w != [] && s in Reversed(w)[1..]
    ensures s in w[..|w| - 1]
  {
    hide Reversed;
    var q := Reversed(w);
    var i :| 0 <= i < |q[1..]| && q[1..][i] == s;
    assert q[i + 1] == s == w[|w| - 2 - i];
    assert w[..|w| - 1][|w| - 2 - i] == s;
  }

  // ---- The promises, in terms of the tagged process alone ----

  predicate Directable(ids: seq<string>, els: Index, x: string)
    requires (forall y | y in ids :: y in els) && x in els
  {
    var numIn, numOut := |Inbound(ids, els, x)|, |els[x].Targets()|;
    (numIn == 1 && numOut > 1) || (numIn > 1 && numOut == 1)
  }

  predicate AllDirectable(ids: seq<string>, els: Index)
    requires forall y | y in ids :: y in els
  {
    forall x | x in ids && els[x].typ.Gateway? :: Directable(ids, els, x)
  }

  predicate SameButGateways(was: Index, els: Index) {
    was.Keys == els.Keys && forall x | x in was :: els[x] == was[x].(gateway := els[x].gateway)
  }

  /** A join has what leads to it as its expectations and no reciprocal, or no expectations beyond those it had and as
      its reciprocal a split of its type that is on every way to it from an element nothing leads to. */
  ghost predicate Settled(ids: seq<string>, els: Index, j: string)
    requires (forall x | x in ids :: x in els) && j in els && els[j].gateway.Some?
  {
    || (Spec(els, j).fixedExpectations == Inbound(ids, els, j) && Spec(els, j).reciprocalId == "")
    || var s := Spec(els, j).reciprocalId;
       && s in els && els[s].IsSplit() && Spec(els, s).kind == Spec(els, j).kind
       && forall w | WayTo(ids, els, w, j) :: s in w[..|w| - 1]
  }

  predicate PointedBack(ids: seq<string>, els: Index, s: string)
    requires s in els && els[s].gateway.Some?
  {
    var r := Spec(els, s).reciprocalId;
    r in ids && r in els && els[r].IsJoin() && Spec(els, r).kind == Spec(els, s).kind && Spec(els, r).reciprocalId == s
  }

  lemma DirectableIff(ids: seq<string>, els: Index, refs: References)
    requires WellFormed(ids, els) && IsReferences(refs, ids, els)
    ensures forall x | x in ids :: Directable(ids, els, x) <==> DirectionOf(els[x], refs).Some?
  {
    hide Inbound;
    forall x | x in ids
      ensures Directable(ids, els, x) <==> DirectionOf(els[x], refs).Some?
    {
      assert RefsTo(refs, els[x].id) == Inbound(ids, els, x);
    }
  }

  lemma {:induction false} SameInbound(ids: seq<string>, a: Index, b: Index, t: string)
    requires (forall x | x in ids :: x in a) && SameButGateways(a, b)
    ensures Inbound(ids, a, t) == Inbound(ids, b, t)
  {
    if ids != [] {
      SameInbound(ids[..|ids| - 1], a, b, t);
      assert a[ids[|ids| - 1]].Targets() == b[ids[|ids| - 1]].Targets();
    }
  }

  lemma SameFlowGraph(ids: seq<string>, a: Index, b: Index)
    requires SameButGateways(a, b)
    ensures FlowGraph(ids, a) == FlowGraph(ids, b)
  {
    hide TargetIds;
    assert forall x | x in a :: a[x].Targets() == b[x].Targets();
  }

  lemma SameFlows(ids: seq<string>, a: Index, b: Index)
    requires (forall x | x in ids :: x in a) && SameButGateways(a, b)
    ensures forall x | x in ids :: x in b
    ensures FlowGraph(ids, a) == FlowGraph(ids, b)
    ensures forall t :: Inbound(ids, a, t) == Inbound(ids, b, t)
    ensures forall w, j :: WayTo(ids, a, w, j) <==> WayTo(ids, b, w, j)
  {
    hide Inbound, FlowGraph, IsWalk;
    SameFlowGraph(ids, a, b);
    forall t
      ensures Inbound(ids, a, t) == Inbound(ids, b, t)
    {
      SameInbound(ids, a, b, t);
    }
    hide SameButGateways;
  }

  lemma SameAfterDirections(ids: seq<string>, was: Index, dir: Index, refs: References)
    requires Directed(ids, was, dir, refs, |ids|)
    ensures SameButGateways(was, dir)
    ensures forall x | x in dir && dir[x].gateway.Some? ::
            was[x].gateway.Some? && Spec(dir, x).reciprocalId == Spec(was, x).reciprocalId
  {
  }

  lemma SameAfterMatching(p: Process, ids: seq<string>, dir: Index, els: Index)
    requires Linked(p, ids, dir, els, |ids|)
    ensures SameGates(dir, els) && SameButGateways(dir, els)
  {
    hide MatchedJoin, MatchedSplit;
  }

  lemma SameReferences(refs: References, ids: seq<string>, a: Index, b: Index)
    requires (forall x | x in ids :: x in a) && SameButGateways(a, b) && IsReferences(refs, ids, a)
    ensures IsReferences(refs, ids, b)
  {
    SameFlows(ids, a, b);
    hide Inbound, FlowGraph;
  }

  lemma TaggedMeans(p: Process, ids: seq<string>, was: Index, dir: Index, els: Index, refs: References)
    requires WellFormed(ids, was) && IsReferences(refs, ids, was) && Directed(ids, was, dir, refs, |ids|)
    requires forall x | x in was && was[x].gateway.Some? :: Spec(was, x).reciprocalId == ""
    requires forall x | x in ids && was[x].typ.Gateway? :: DirectedByFlows(ids, was, dir, x)
    requires p.nodes == View(dir) && p.refs == refs && Linked(p, ids, dir, els, |ids|)
    ensures SameButGateways(was, els) && forall x | x in ids :: x in els
    ensures forall x | x in ids && els[x].typ.Gateway? :: DirectedByFlows(ids, els, els, x)
    ensures forall j | j in ids && els[j].IsJoin() :: Settled(ids, els, j)
    ensures forall s | s in els && els[s].IsSplit() && Spec(els, s).reciprocalId != "" :: PointedBack(ids, els, s)
  {
    hide View, Linked, Inbound, FlowGraph, WayTo, Directed, IsReferences, DirectedByFlows, Settled, PointedBack,
      SameGate;
    SameAfterDirections(ids, was, dir, refs);
    SameAfterMatching(p, ids, dir, els);
    SameTwice(was, dir, els);
    SameReferences(refs, ids, was, dir);
    hide SameButGateways, SameGates;
    forall x | x in ids && els[x].typ.Gateway?
      ensures DirectedByFlows(ids, els, els, x)
    {
      TaggedDirection(ids, was, dir, els, x);
    }
    forall j | j in ids && els[j].IsJoin()
      ensures Settled(ids, els, j)
    {
      SameGateThere(dir, els, j);
      TaggedJoin(p, ids, dir, els, j);
    }
    forall s | s in els && els[s].IsSplit() && Spec(els, s).reciprocalId != ""
      ensures PointedBack(ids, els, s)
    {
      SameGateThere(dir, els, s);
      PointsBack(p, ids, dir, els, s);
    }
  }

  lemma SameTwice(was: Index, dir: Index, els: Index)
    requires SameButGateways(was, dir) && SameButGateways(dir, els)
    ensures SameButGateways(was, els) && was.Keys == dir.Keys == els.Keys
    ensures forall x | x in was :: els[x].typ == was[x].typ
  {
  }

  lemma SameGateThere(dir: Index, els: Index, x: string)
    requires SameGates(dir, els) && x in els && els[x].gateway.Some?
    ensures x in dir && dir[x].gateway.Some? && (dir[x].IsJoin() <==> els[x].IsJoin())
    ensures (dir[x].IsSplit() <==> els[x].IsSplit())
  {
    assert SameGate(dir[x], els[x]);
  }

  lemma TaggedDirection(ids: seq<string>, was: Index, dir: Index, els: Index, x: string)
    requires (forall y | y in ids :: y in was) && (forall y | y in ids :: y in els)
    requires SameButGateways(was, els) && SameGates(dir, els)
    requires x in was && x in els && DirectedByFlows(ids, was, dir, x)
    ensures DirectedByFlows(ids, els, els, x)
  {
    hide Inbound, TargetIds;
    SameInbound(ids, was, els, x);
    assert SameGate(dir[x], els[x]) && els[x].Targets() == was[x].Targets();
  }

  lemma TaggedJoin(p: Process, ids: seq<string>, dir: Index, els: Index, j: string)
    requires (forall x | x in ids :: x in dir) && IsReferences(p.refs, ids, dir) && SameGates(dir, els)
    requires SameButGateways(dir, els)
    requires p.nodes == View(dir) && Linked(p, ids, dir, els, |ids|)
    requires j in ids && els[j].IsJoin() && Spec(dir, j).reciprocalId == ""
    ensures Settled(ids, els, j)
  {
    hide View, Linked, Inbound, FlowGraph, WayTo, IsReferences;
    assert SameGate(dir[j], els[j]);
    JoinsSettled(p, ids, dir, els, j);
    SameFlows(ids, dir, els);
  }

  /** The split s encloses the join j in the process that the flows give. */
  ghost predicate EnclosedBy(ids: seq<string>, els: Index, j: string, s: string)
    requires forall x | x in ids :: x in els
  {
    Encloses(FlowView(ids, els), FlowRefs(ids, els), s, j)
  }

  lemma TaggedReciprocals(p: Process, ids: seq<string>, was: Index, dir: Index, els: Index, refs: References)
    requires WellFormed(ids, was) && IsReferences(refs, ids, was) && Directed(ids, was, dir, refs, |ids|)
    requires forall x | x in was && was[x].gateway.Some? :: Spec(was, x).reciprocalId == ""
    requires p.nodes == View(dir) && p.refs == refs && p.WellFormed() && Linked(p, ids, dir, els, |ids|)
    ensures forall j, s | j in ids && j in els && els[j].IsJoin() && s != "" && s != NULL_MARKER ::
              Spec(els, j).reciprocalId == s <==> EnclosedBy(ids, was, j, s)
  {
    hide View, FlowView, Linked, FlowRefs, Directed, IsReferences, Encloses, Process.WellFormed, SameButGateways,
      SameGate, Resolves;
    RefsAreFlows(ids, was, refs);
    DirectedView(ids, was, dir, refs);
    SameAfterDirections(ids, was, dir, refs);
    SameAfterMatching(p, ids, dir, els);
    forall j, s | j in ids && j in els && els[j].IsJoin() && s != "" && s != NULL_MARKER
      ensures Spec(els, j).reciprocalId == s <==> EnclosedBy(ids, was, j, s)
    {
      SameGateThere(dir, els, j);
      JoinViewed(p, dir, j);
      JoinReady(p, j);
      TaggedReciprocal(p, ids, dir, els, j, s);
      ResolvesIffEnclosed(p, j, s);
    }
  }

  lemma TaggedReciprocal(p: Process, ids: seq<string>, dir: Index, els: Index, j: string, s: string)
    requires Linked(p, ids, dir, els, |ids|) && j in ids && j in dir && dir[j].IsJoin() && s != ""
    requires Spec(dir, j).reciprocalId == ""
    ensures j in els && els[j].gateway.Some? && (Spec(els, j).reciprocalId == s <==> Resolves(p, j, s))
  {
    hide Linked, Resolves;
    assert ids[..|ids|] == ids;
    LinkedIs(p, ids, dir, els, |ids|, j);
    if Resolves(p, j, s) {
      JoinPoints(p, dir, els, j, s);
    }
  }

  lemma PointsBack(p: Process, ids: seq<string>, dir: Index, els: Index, s: string)
    requires p.nodes == View(dir) && Linked(p, ids, dir, els, |ids|)
    requires s in dir && dir[s].IsSplit() && Spec(dir, s).reciprocalId == "" && s in els && els[s].gateway.Some?
    requires Spec(els, s).reciprocalId != ""
    ensures PointedBack(ids, els, s)
  {
    hide View, Linked;
    ReciprocalsPointBack(p, ids, dir, els, s);
  }
}
