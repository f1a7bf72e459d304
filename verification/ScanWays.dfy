/** What the scan for missing end events enters, told from the flows alone (common/linter/directed_scan.go). */
module ScanWays {
  import opened Graph
  import opened Linter
  import opened Model

  // ---- Ways, and flows that are told apart by them ----

  /** A way from a start event along flows: the elements, and which of its flows each one is left by. */
  datatype Way = Way(start: nat, els: seq<string>, flows: seq<nat>)

  predicate IsWay(eles: Index, starts: seq<string>, w: Way) {
    && w.start < |starts| && |w.els| == |w.flows| + 1 && w.els[0] == starts[w.start]
    && (forall n | 0 <= n < |w.els| :: w.els[n] in eles)
    && forall n | 0 <= n < |w.flows| ::
         w.flows[n] < |ScanTargets(eles, w.els[n])| && ScanTargets(eles, w.els[n])[w.flows[n]] == w.els[n + 1]
  }

  function End(w: Way): string
    requires w.els != []
  {
    w.els[|w.els| - 1]
  }

  predicate WayTo(eles: Index, starts: seq<string>, w: Way, v: string) {
    IsWay(eles, starts, w) && End(w) == v
  }

  predicate UsesAt(w: Way, x: string, i: nat, n: nat)
    requires |w.els| == |w.flows| + 1
  {
    n < |w.flows| && w.els[n] == x && w.flows[n] >= i
  }

  /** Every way to z leaves x by its i-th flow or a later one. */
  ghost predicate OnlyBy(eles: Index, starts: seq<string>, x: string, i: nat, z: string) {
    forall w | WayTo(eles, starts, w, z) :: exists n: nat :: UsesAt(w, x, i, n)
  }

  /** What the i-th flow of x leads to cannot have been entered before the scan comes to that flow. */
  ghost predicate NotYet(eles: Index, starts: seq<string>, x: string, i: nat)
    requires x in eles && i < |ScanTargets(eles, x)|
  {
    OnlyBy(eles, starts, x, i, ScanTargets(eles, x)[i])
  }

  /** No flow listed before the k-th can stop the scan of x. */
  ghost predicate Kept(eles: Index, starts: seq<string>, x: string, k: nat)
    requires x in eles && k <= |ScanTargets(eles, x)|
  {
    forall i: nat | i < k :: NotYet(eles, starts, x, i)
  }

  ghost predicate KeptEdge(eles: Index, starts: seq<string>, x: string, y: string) {
    x in eles && exists k: nat :: k < |ScanTargets(eles, x)| && Kept(eles, starts, x, k) && ScanTargets(eles, x)[k] == y
  }

  /** When the scan comes along w, it has gone through v before: an earlier flow of an element on the way leads to v, or
      v is an earlier start event. */
  ghost predicate Behind(eles: Index, starts: seq<string>, w: Way, v: string)
    requires IsWay(eles, starts, w)
  {
    || v in starts[..w.start]
    || exists n: nat, m: nat :: n < |w.flows| && m < w.flows[n] && ScanTargets(eles, w.els[n])[m] == v
  }

  /** Flows that the scan is sure to follow, from elements that are not on the way. */
  ghost predicate SureWalk(eles: Index, starts: seq<string>, avoid: seq<string>, q: seq<string>) {
    q != [] && forall n | 0 <= n < |q| - 1 :: q[n] !in avoid && KeptEdge(eles, starts, q[n], q[n + 1])
  }

  ghost predicate SureOn(eles: Index, starts: seq<string>, w: Way, t: string)
    requires IsWay(eles, starts, w)
  {
    t in w.els || exists q :: SureWalk(eles, starts, w.els, q) && Behind(eles, starts, w, q[0]) && q[|q| - 1] == t
  }

  /** Whichever way the scan comes to x, it has entered what the i-th flow leads to by then: that lies on the way, or
      flows lead there that have been followed for sure. */
  ghost predicate EnteredBefore(eles: Index, starts: seq<string>, x: string, i: nat)
    requires x in eles && i < |ScanTargets(eles, x)|
  {
    forall w | WayTo(eles, starts, w, x) :: SureOn(eles, starts, w, ScanTargets(eles, x)[i])
  }

  // ---- What the scan knows at every step ----

  /** Some flow of u is still to come: the m-th is at or behind the limit noted for u. */
  predicate Ahead(els: seq<string>, limits: seq<nat>, u: string, m: nat)
    requires |els| == |limits|
  {
    exists n :: 0 <= n < |els| && els[n] == u && m >= limits[n]
  }

  predicate Beyond(extra: map<string, nat>, u: string, m: nat) {
    u in extra && m >= extra[u]
  }

  /** A way to v within what has been entered that takes no flow still to come and none beyond the limits of `extra`. */
  ghost predicate Trace(eles: Index, starts: seq<string>, extra: map<string, nat>, visited: set<string>,
                        els: seq<string>, limits: seq<nat>, t: Way, v: string)
    requires |els| == |limits|
  {
    && WayTo(eles, starts, t, v) && |t.els| == |t.flows| + 1 && (forall u | u in t.els :: u in visited)
    && forall n | 0 <= n < |t.flows| ::
         !Ahead(els, limits, t.els[n], t.flows[n]) && !Beyond(extra, t.els[n], t.flows[n])
  }

  ghost predicate Traced(eles: Index, starts: seq<string>, extra: map<string, nat>, visited: set<string>,
                         els: seq<string>, limits: seq<nat>, v: string)
    requires |els| == |limits|
  {
    exists t :: Trace(eles, starts, extra, visited, els, limits, t, v)
  }

  /** The flows of v that nothing can stop the scan from following have been followed. */
  ghost predicate Finished(eles: Index, starts: seq<string>, visited: set<string>, v: string)
    requires v in eles
  {
    forall k: nat | k < |ScanTargets(eles, v)| && Kept(eles, starts, v, k) :: ScanTargets(eles, v)[k] in visited
  }

  /** `els` is the stack of the scan, with the number of flows that each element on it is done with or at. */
  ghost predicate Steady(eles: Index, starts: seq<string>, extra: map<string, nat>, visited: set<string>,
                         els: seq<string>, limits: seq<nat>)
    requires |els| == |limits|
  {
    forall v | v in visited ::
      && v in eles && Traced(eles, starts, extra, visited, els, limits, v)
      && (v !in els ==> Finished(eles, starts, visited, v))
  }

  function Limits(flows: seq<nat>): (limits: seq<nat>)
    ensures |limits| == |flows| && forall n | 0 <= n < |flows| :: limits[n] == flows[n] + 1
  {
    seq(|flows|, n requires 0 <= n < |flows| => flows[n] + 1)
  }

  /** The flows listed before the ones the way takes, and before the k-th of its end, have been entered. */
  ghost predicate Passed(eles: Index, starts: seq<string>, visited: set<string>, w: Way, k: nat)
    requires IsWay(eles, starts, w) && k <= |ScanTargets(eles, End(w))|
  {
    && (forall p | 0 <= p <= w.start :: starts[p] in visited)
    && (forall n: nat, m: nat | n < |w.flows| && m < w.flows[n] :: ScanTargets(eles, w.els[n])[m] in visited)
    && (forall m: nat | m < k :: ScanTargets(eles, End(w))[m] in visited)
  }

  /** The scan has come along w, and is at the k-th flow of its end. */
  ghost predicate InScan(eles: Index, starts: seq<string>, extra: map<string, nat>, visited: set<string>, w: Way,
                         k: nat) {
    && IsWay(eles, starts, w) && k <= |ScanTargets(eles, End(w))|
    && End(w) !in w.els[..|w.flows|] && (forall u | u in w.els :: u in visited)
    && Passed(eles, starts, visited, w, k)
    && Steady(eles, starts, extra, visited, w.els, Limits(w.flows) + [k])
    && (End(w) in extra ==> k < extra[End(w)])
  }

  /** The limits come right after flows into elements entered before. */
  ghost predicate Blocks(eles: Index, starts: seq<string>, extra: map<string, nat>) {
    forall x | x in extra ::
      x in eles && 0 < extra[x] <= |ScanTargets(eles, x)| && EnteredBefore(eles, starts, x, extra[x] - 1)
  }

  lemma InScanIs(eles: Index, starts: seq<string>, extra: map<string, nat>, visited: set<string>, w: Way, k: nat)
    requires InScan(eles, starts, extra, visited, w, k)
    ensures IsWay(eles, starts, w) && |w.els| == |w.flows| + 1 && End(w) in eles && End(w) in visited
    ensures k <= |ScanTargets(eles, End(w))| && End(w) !in w.els[..|w.flows|] && (forall u | u in w.els :: u in visited)
    ensures Passed(eles, starts, visited, w, k) && Steady(eles, starts, extra, visited, w.els, Limits(w.flows) + [k])
    ensures End(w) in extra ==> k < extra[End(w)]
  {
    hide Steady, Passed, ScanTargets;
    assert End(w) in w.els;
  }

  lemma {:induction false} SureIsVisited(eles: Index, starts: seq<string>, visited: set<string>, avoid: seq<string>,
                                         q: seq<string>, n: nat)
    requires SureWalk(eles, starts, avoid, q) && n < |q| && q[0] in visited
    requires forall v | v in visited :: v in eles && (v !in avoid ==> Finished(eles, starts, visited, v))
    ensures q[n] in visited
  {
    hide Kept, ScanTargets;
    if n > 0 {
      SureIsVisited(eles, starts, visited, avoid, q, n - 1);
      assert KeptEdge(eles, starts, q[n - 1], q[n - 1 + 1]);
    }
  }

  lemma SteadyFinished(eles: Index, starts: seq<string>, extra: map<string, nat>, visited: set<string>,
                       els: seq<string>, limits: seq<nat>)
    requires |els| == |limits| && Steady(eles, starts, extra, visited, els, limits)
    ensures forall v | v in visited :: v in eles && (v !in els ==> Finished(eles, starts, visited, v))
  {
    hide Traced, Finished;
  }

  lemma BehindVisited(eles: Index, starts: seq<string>, visited: set<string>, w: Way, k: nat, v: string)
    requires IsWay(eles, starts, w) && k <= |ScanTargets(eles, End(w))| && Passed(eles, starts, visited, w, k)
    requires Behind(eles, starts, w, v)
    ensures v in visited
  {
    hide ScanTargets;
  }

  /** What is entered before x is entered when the scan is at x. */
  lemma EnteredAlready(eles: Index, starts: seq<string>, extra: map<string, nat>, visited: set<string>, w: Way, k: nat,
                       i: nat)
    requires InScan(eles, starts, extra, visited, w, k) && w.els != [] && End(w) in eles
    requires i < |ScanTargets(eles, End(w))|
    requires EnteredBefore(eles, starts, End(w), i)
    ensures ScanTargets(eles, End(w))[i] in visited
  {
    hide InScan, Steady, Traced, Finished, ScanTargets, Kept, IsWay;
    InScanIs(eles, starts, extra, visited, w, k);
    var t := ScanTargets(eles, End(w))[i];
    SteadyFinished(eles, starts, extra, visited, w.els, Limits(w.flows) + [k]);
    assert WayTo(eles, starts, w, End(w));
    assert SureOn(eles, starts, w, t);
    if t !in w.els {
      var q :| SureWalk(eles, starts, w.els, q) && Behind(eles, starts, w, q[0]) && q[|q| - 1] == t;
      BehindVisited(eles, starts, visited, w, k, q[0]);
      SureIsVisited(eles, starts, visited, w.els, q, |q| - 1);
    }
  }

  function Extend(eles: Index, w: Way, k: nat, t: string): Way {
    Way(w.start, w.els + [t], w.flows + [k])
  }

  lemma ExtendIsWay(eles: Index, starts: seq<string>, w: Way, k: nat)
    requires Closed(eles) && IsWay(eles, starts, w) && k < |ScanTargets(eles, End(w))|
    ensures WayTo(eles, starts, Extend(eles, w, k, ScanTargets(eles, End(w))[k]), ScanTargets(eles, End(w))[k])
  {
    TargetKnown(eles, End(w), k);
    hide ScanTargets, Closed;
    var t := ScanTargets(eles, End(w))[k];
    var c := Extend(eles, w, k, t);
    forall n | 0 <= n < |c.flows|
      ensures c.flows[n] < |ScanTargets(eles, c.els[n])| && ScanTargets(eles, c.els[n])[c.flows[n]] == c.els[n + 1]
    {
      assert c.els[n] == w.els[n];
    }
  }

  lemma FinishedMore(eles: Index, starts: seq<string>, visited: set<string>, more: set<string>, v: string)
    requires v in eles && Finished(eles, starts, visited, v) && visited <= more
    ensures Finished(eles, starts, more, v)
  {
  }

  /** Going down a flow: the ways to what was entered before do not use the flows of the element now entered. */
  lemma OldTrace(eles: Index, starts: seq<string>, extra: map<string, nat>, visited: set<string>, w: Way, k: nat,
                 t: string, v: string)
    requires |w.els| == |w.flows| + 1 && t !in visited
    requires Traced(eles, starts, extra, visited, w.els, Limits(w.flows) + [k], v)
    ensures Traced(eles, starts, extra, visited + {t}, w.els + [t], Limits(w.flows + [k]) + [0], v)
  {
    var els, limits := w.els + [t], Limits(w.flows + [k]) + [0];
    var o :| Trace(eles, starts, extra, visited, w.els, Limits(w.flows) + [k], o, v);
    hide WayTo, Beyond, Limits;
    forall n | 0 <= n < |o.flows|
      ensures !Ahead(els, limits, o.els[n], o.flows[n])
    {
      TraceNotAhead(eles, starts, extra, visited, w.els, Limits(w.flows) + [k], o, v, n);
      AheadDown(w, k, t, o.els[n], o.flows[n]);
    }
    assert Trace(eles, starts, extra, visited + {t}, els, limits, o, v);
  }

  lemma TraceNotAhead(eles: Index, starts: seq<string>, extra: map<string, nat>, visited: set<string>,
                      els: seq<string>, limits: seq<nat>, t: Way, v: string, n: nat)
    requires |els| == |limits| && Trace(eles, starts, extra, visited, els, limits, t, v) && n < |t.flows|
    ensures n < |t.els| && t.els[n] in visited && !Ahead(els, limits, t.els[n], t.flows[n])
  {
  }

  lemma AheadDown(w: Way, k: nat, t: string, u: string, m: nat)
    requires |w.els| == |w.flows| + 1 && u != t && !Ahead(w.els, Limits(w.flows) + [k], u, m)
    ensures !Ahead(w.els + [t], Limits(w.flows + [k]) + [0], u, m)
  {
    var els, limits := w.els + [t], Limits(w.flows + [k]) + [0];
    forall n | 0 <= n < |els| && els[n] == u
      ensures m < limits[n]
    {
      assert w.els[n] == u && (Limits(w.flows) + [k])[n] <= limits[n];
    }
  }

  lemma NewTrace(eles: Index, starts: seq<string>, extra: map<string, nat>, visited: set<string>, w: Way, k: nat)
    requires Closed(eles) && InScan(eles, starts, extra, visited, w, k) && w.els != [] && End(w) in eles
    requires k < |ScanTargets(eles, End(w))| && ScanTargets(eles, End(w))[k] !in visited
    ensures var t := ScanTargets(eles, End(w))[k];
            |w.els| == |w.flows| + 1
              && Traced(eles, starts, extra, visited + {t}, w.els + [t], Limits(w.flows + [k]) + [0], t)
  {
    hide InScan, Steady, Passed, ScanTargets, Ahead, Trace, Limits, IsWay;
    InScanIs(eles, starts, extra, visited, w, k);
    var y, t := End(w), ScanTargets(eles, End(w))[k];
    var more, els, limits := visited + {t}, w.els + [t], Limits(w.flows + [k]) + [0];
    SteadyTraced(eles, starts, extra, visited, w.els, Limits(w.flows) + [k], y);
    OldTrace(eles, starts, extra, visited, w, k, t, y);
    var o :| Trace(eles, starts, extra, more, els, limits, o, y);
    NotAheadThere(w, k, t);
    NotBeyond(eles, starts, extra, visited, w, k);
    TraceOn(eles, starts, extra, more, els, limits, o, y, k);
  }

  lemma TraceOn(eles: Index, starts: seq<string>, extra: map<string, nat>, visited: set<string>,
                els: seq<string>, limits: seq<nat>, o: Way, y: string, k: nat)
    requires Closed(eles) && |els| == |limits| && Trace(eles, starts, extra, visited, els, limits, o, y)
    requires y in eles && k < |ScanTargets(eles, y)| && ScanTargets(eles, y)[k] in visited
    requires !Ahead(els, limits, y, k) && !Beyond(extra, y, k)
    ensures Traced(eles, starts, extra, visited, els, limits, ScanTargets(eles, y)[k])
  {
    var t := ScanTargets(eles, y)[k];
    var c := Extend(eles, o, k, t);
    ExtendIsWay(eles, starts, o, k);
    hide ScanTargets, Ahead, Beyond, Closed;
    forall n | 0 <= n < |c.flows|
      ensures !Ahead(els, limits, c.els[n], c.flows[n]) && !Beyond(extra, c.els[n], c.flows[n])
    {
      if n < |o.flows| {
        assert c.els[n] == o.els[n] && c.flows[n] == o.flows[n];
      }
    }
    assert Trace(eles, starts, extra, visited, els, limits, c, t);
  }

  lemma NotBeyond(eles: Index, starts: seq<string>, extra: map<string, nat>, visited: set<string>, w: Way, k: nat)
    requires InScan(eles, starts, extra, visited, w, k) && w.els != []
    ensures !Beyond(extra, End(w), k)
  {
    hide Steady, Passed, IsWay, ScanTargets;
  }

  lemma EndIsLast(w: Way, n: nat)
    requires |w.els| == |w.flows| + 1 && End(w) !in w.els[..|w.flows|] && n < |w.els| && w.els[n] == End(w)
    ensures n == |w.flows|
  {
    assert w.els == w.els[..|w.flows|] + [End(w)];
  }

  lemma NotAheadThere(w: Way, k: nat, t: string)
    requires |w.els| == |w.flows| + 1 && End(w) !in w.els[..|w.flows|] && t !in w.els
    ensures !Ahead(w.els + [t], Limits(w.flows + [k]) + [0], End(w), k)
  {
    var els, limits := w.els + [t], Limits(w.flows + [k]) + [0];
    forall n | 0 <= n < |els| && els[n] == End(w)
      ensures k < limits[n]
    {
      EndIsLast(w, n);
    }
  }

  lemma StepDown(eles: Index, starts: seq<string>, extra: map<string, nat>, visited: set<string>, w: Way, k: nat)
    requires Closed(eles) && Blocks(eles, starts, extra) && InScan(eles, starts, extra, visited, w, k)
    requires w.els != [] && End(w) in eles
    requires k < |ScanTargets(eles, End(w))| && ScanTargets(eles, End(w))[k] !in visited
    ensures var t := ScanTargets(eles, End(w))[k];
            InScan(eles, starts, extra, visited + {t}, Extend(eles, w, k, t), 0)
  {
    hide InScan, Steady, Passed, ScanTargets, Limits, IsWay, Closed, Blocks;
    InScanIs(eles, starts, extra, visited, w, k);
    var t := ScanTargets(eles, End(w))[k];
    var more, c := visited + {t}, Extend(eles, w, k, t);
    ExtendIsWay(eles, starts, w, k);
    SteadyDown(eles, starts, extra, visited, w, k);
    PassedDown(eles, starts, visited, w, k);
    BlocksAt(eles, starts, extra, t);
    assert c.els[..|c.flows|] == w.els;
    InScanWhen(eles, starts, extra, more, c, 0);
  }

  lemma BlocksAt(eles: Index, starts: seq<string>, extra: map<string, nat>, x: string)
    requires Blocks(eles, starts, extra)
    ensures x in extra ==> 0 < extra[x]
  {
    hide EnteredBefore;
  }

  lemma InScanWhen(eles: Index, starts: seq<string>, extra: map<string, nat>, visited: set<string>, w: Way, k: nat)
    requires IsWay(eles, starts, w) && k <= |ScanTargets(eles, End(w))|
    requires End(w) !in w.els[..|w.flows|] && (forall u | u in w.els :: u in visited)
    requires Passed(eles, starts, visited, w, k) && Steady(eles, starts, extra, visited, w.els, Limits(w.flows) + [k])
    requires End(w) in extra ==> k < extra[End(w)]
    ensures InScan(eles, starts, extra, visited, w, k)
  {
    hide Steady, Passed, ScanTargets;
  }

  lemma SteadyDown(eles: Index, starts: seq<string>, extra: map<string, nat>, visited: set<string>, w: Way, k: nat)
    requires Closed(eles) && InScan(eles, starts, extra, visited, w, k) && w.els != [] && End(w) in eles
    requires k < |ScanTargets(eles, End(w))| && ScanTargets(eles, End(w))[k] !in visited
    ensures var t := ScanTargets(eles, End(w))[k];
            && |w.els| == |w.flows| + 1
            && Steady(eles, starts, extra, visited + {t}, w.els + [t], Limits(w.flows + [k]) + [0])
  {
    hide InScan, Closed, ScanTargets, Traced, Finished, Passed, IsWay, Limits, Steady;
    TargetKnown(eles, End(w), k);
    InScanIs(eles, starts, extra, visited, w, k);
    var t := ScanTargets(eles, End(w))[k];
    var more, els, limits := visited + {t}, w.els + [t], Limits(w.flows + [k]) + [0];
    NewTrace(eles, starts, extra, visited, w, k);
    forall v | v in more
      ensures v in eles && Traced(eles, starts, extra, more, els, limits, v)
      ensures v !in els ==> Finished(eles, starts, more, v)
    {
      if v != t {
        SteadyTraced(eles, starts, extra, visited, w.els, Limits(w.flows) + [k], v);
        OldTrace(eles, starts, extra, visited, w, k, t, v);
        if v !in w.els {
          FinishedMore(eles, starts, visited, more, v);
        }
      }
    }
    SteadyWhen(eles, starts, extra, more, els, limits);
  }

  lemma SteadyWhen(eles: Index, starts: seq<string>, extra: map<string, nat>, visited: set<string>,
                   els: seq<string>, limits: seq<nat>)
    requires |els| == |limits|
    requires forall v | v in visited :: v in eles && Traced(eles, starts, extra, visited, els, limits, v)
    requires forall v | v in visited :: v in eles && (v !in els ==> Finished(eles, starts, visited, v))
    ensures Steady(eles, starts, extra, visited, els, limits)
  {
    hide Traced, Finished;
  }

  lemma PassedDown(eles: Index, starts: seq<string>, visited: set<string>, w: Way, k: nat)
    requires Closed(eles) && IsWay(eles, starts, w) && k < |ScanTargets(eles, End(w))|
    requires Passed(eles, starts, visited, w, k)
    ensures var t := ScanTargets(eles, End(w))[k];
            && IsWay(eles, starts, Extend(eles, w, k, t))
            && Passed(eles, starts, visited + {t}, Extend(eles, w, k, t), 0)
  {
    ExtendIsWay(eles, starts, w, k);
    hide Closed, ScanTargets;
    var t := ScanTargets(eles, End(w))[k];
    var c := Extend(eles, w, k, t);
    forall n: nat, m: nat | n < |c.flows| && m < c.flows[n]
      ensures ScanTargets(eles, c.els[n])[m] in visited
    {
      assert c.els[n] == w.els[n];
    }
  }

  /** Back from a flow: the scan is at the next one. */
  lemma StepOn(eles: Index, starts: seq<string>, extra: map<string, nat>, visited: set<string>, w: Way, k: nat,
               mid: set<string>)
    requires Blocks(eles, starts, extra) && InScan(eles, starts, extra, visited, w, k)
    requires w.els != [] && End(w) in eles && |w.els| == |w.flows| + 1
    requires k < |ScanTargets(eles, End(w))| && ScanTargets(eles, End(w))[k] !in visited
    requires visited + {ScanTargets(eles, End(w))[k]} <= mid
    requires Steady(eles, starts, extra, mid, w.els, Limits(w.flows + [k]))
    ensures InScan(eles, starts, extra, mid, w, k + 1)
  {
    hide InScan, Steady, ScanTargets, IsWay, EnteredBefore, Limits, Passed, Blocks;
    InScanIs(eles, starts, extra, visited, w, k);
    LimitsAppend(w.flows, k);
    if End(w) in extra {
      NotStopped(eles, starts, extra, visited, w, k);
    }
    PassedOn(eles, starts, visited, w, k, mid);
    InScanWhen(eles, starts, extra, mid, w, k + 1);
  }

  lemma LimitsAppend(flows: seq<nat>, k: nat)
    ensures Limits(flows + [k]) == Limits(flows) + [k + 1]
  {
  }

  lemma NotStopped(eles: Index, starts: seq<string>, extra: map<string, nat>, visited: set<string>, w: Way, k: nat)
    requires Blocks(eles, starts, extra) && InScan(eles, starts, extra, visited, w, k) && w.els != [] && End(w) in eles
    requires k < |ScanTargets(eles, End(w))| && ScanTargets(eles, End(w))[k] !in visited && End(w) in extra
    ensures k + 1 < extra[End(w)]
  {
    hide InScan, ScanTargets, EnteredBefore;
    InScanIs(eles, starts, extra, visited, w, k);
    if EnteredBefore(eles, starts, End(w), k) {
      EnteredAlready(eles, starts, extra, visited, w, k, k);
    }
  }

  lemma PassedOn(eles: Index, starts: seq<string>, visited: set<string>, w: Way, k: nat, mid: set<string>)
    requires IsWay(eles, starts, w) && k < |ScanTargets(eles, End(w))| && Passed(eles, starts, visited, w, k)
    requires visited + {ScanTargets(eles, End(w))[k]} <= mid
    ensures Passed(eles, starts, mid, w, k + 1)
  {
    hide ScanTargets;
  }

  lemma TraceFewer(eles: Index, starts: seq<string>, extra: map<string, nat>, visited: set<string>,
                   els: seq<string>, limits: seq<nat>, e: string, l: nat, v: string)
    requires |els| == |limits| && Traced(eles, starts, extra, visited, els + [e], limits + [l], v)
    ensures Traced(eles, starts, extra, visited, els, limits, v)
  {
    hide WayTo, Beyond;
    var o :| Trace(eles, starts, extra, visited, els + [e], limits + [l], o, v);
    forall n | 0 <= n < |o.flows|
      ensures !Ahead(els, limits, o.els[n], o.flows[n])
    {
      TraceNotAhead(eles, starts, extra, visited, els + [e], limits + [l], o, v, n);
      AheadFewer(els, limits, e, l, o.els[n], o.flows[n]);
    }
    hide Ahead;
    assert Trace(eles, starts, extra, visited, els, limits, o, v);
  }

  lemma AheadFewer(els: seq<string>, limits: seq<nat>, e: string, l: nat, u: string, m: nat)
    requires |els| == |limits| && !Ahead(els + [e], limits + [l], u, m)
    ensures !Ahead(els, limits, u, m)
  {
    forall n | 0 <= n < |els| && els[n] == u
      ensures m < limits[n]
    {
      assert (els + [e])[n] == u && (limits + [l])[n] == limits[n];
    }
  }

  /** A flow that cannot lead to anything entered yet does not. */
  lemma NotYetEntered(eles: Index, starts: seq<string>, extra: map<string, nat>, visited: set<string>, w: Way, k: nat)
    requires InScan(eles, starts, extra, visited, w, k) && w.els != [] && End(w) in eles
    requires k < |ScanTargets(eles, End(w))|
    requires NotYet(eles, starts, End(w), k)
    ensures ScanTargets(eles, End(w))[k] !in visited
  {
    hide InScan, Trace, ScanTargets, WayTo, UsesAt;
    InScanIs(eles, starts, extra, visited, w, k);
    var t := ScanTargets(eles, End(w))[k];
    if t in visited {
      SteadyTraced(eles, starts, extra, visited, w.els, Limits(w.flows) + [k], t);
      var o :| Trace(eles, starts, extra, visited, w.els, Limits(w.flows) + [k], o, t);
      TraceAvoids(eles, starts, extra, visited, w, k, o, t);
    }
  }

  lemma SteadyTraced(eles: Index, starts: seq<string>, extra: map<string, nat>, visited: set<string>,
                     els: seq<string>, limits: seq<nat>, v: string)
    requires |els| == |limits| && Steady(eles, starts, extra, visited, els, limits) && v in visited
    ensures v in eles && Traced(eles, starts, extra, visited, els, limits, v)
    ensures v !in els ==> Finished(eles, starts, visited, v)
  {
    hide Traced, Finished;
  }

  lemma TraceAvoids(eles: Index, starts: seq<string>, extra: map<string, nat>, visited: set<string>, w: Way, k: nat,
                    o: Way, v: string)
    requires |w.els| == |w.flows| + 1 && Trace(eles, starts, extra, visited, w.els, Limits(w.flows) + [k], o, v)
    ensures WayTo(eles, starts, o, v) && |o.els| == |o.flows| + 1 && forall n: nat :: !UsesAt(o, End(w), k, n)
  {
    hide Beyond, ScanTargets;
    assert w.els[|w.flows|] == End(w) && (Limits(w.flows) + [k])[|w.flows|] == k;
    forall n: nat | n < |o.flows| && o.els[n] == End(w)
      ensures o.flows[n] < k
    {
      assert !Ahead(w.els, Limits(w.flows) + [k], o.els[n], o.flows[n]);
    }
  }

  /** The scan of an element is over: with its flows, or at one into an element entered already. */
  lemma StepEnd(eles: Index, starts: seq<string>, extra: map<string, nat>, visited: set<string>, w: Way, k: nat)
    requires InScan(eles, starts, extra, visited, w, k) && w.els != [] && End(w) in eles
    requires k == |ScanTargets(eles, End(w))| || ScanTargets(eles, End(w))[k] in visited
    ensures |w.els| == |w.flows| + 1 && Steady(eles, starts, extra, visited, w.els[..|w.flows|], Limits(w.flows))
  {
    hide InScan, Traced, Finished, ScanTargets, Passed, IsWay, Limits;
    InScanIs(eles, starts, extra, visited, w, k);
    var y, below := End(w), w.els[..|w.flows|];
    assert w.els == below + [y];
    FinishedThere(eles, starts, extra, visited, w, k);
    forall v | v in visited
      ensures v in eles && Traced(eles, starts, extra, visited, below, Limits(w.flows), v)
      ensures v !in below ==> Finished(eles, starts, visited, v)
    {
      TraceFewer(eles, starts, extra, visited, below, Limits(w.flows), y, k, v);
    }
  }

  lemma FinishedThere(eles: Index, starts: seq<string>, extra: map<string, nat>, visited: set<string>, w: Way, k: nat)
    requires InScan(eles, starts, extra, visited, w, k) && w.els != [] && End(w) in eles
    requires k == |ScanTargets(eles, End(w))| || ScanTargets(eles, End(w))[k] in visited
    ensures Finished(eles, starts, visited, End(w))
  {
    hide InScan, Steady, ScanTargets, NotYet, IsWay;
    InScanIs(eles, starts, extra, visited, w, k);
    var y := End(w);
    if k < |ScanTargets(eles, y)| && NotYet(eles, starts, y, k) {
      NotYetEntered(eles, starts, extra, visited, w, k);
    }
  }

  lemma {:induction false} ScanKeeps(eles: Index, starts: seq<string>, extra: map<string, nat>, visited: set<string>,
                                     w: Way, k: nat)
    requires Closed(eles) && Blocks(eles, starts, extra) && InScan(eles, starts, extra, visited, w, k)
    requires w.els != [] && End(w) in eles && k <= |ScanTargets(eles, End(w))| && |w.els| == |w.flows| + 1
    ensures Steady(eles, starts, extra, EnterFrom(eles, End(w), k, visited), w.els[..|w.flows|], Limits(w.flows))
    decreases |eles.Keys - visited|, |ScanTargets(eles, End(w))| - k
  {
    hide Closed, Blocks, InScan, Steady, ScanTargets, Limits;
    var ts := ScanTargets(eles, End(w));
    if k == |ts| || ts[k] in visited {
      StepEnd(eles, starts, extra, visited, w, k);
    } else {
      var t := ts[k];
      var c := Extend(eles, w, k, t);
      TargetKnown(eles, End(w), k);
      SeeMore(eles.Keys, visited, visited + {t});
      StepDown(eles, starts, extra, visited, w, k);
      ScanKeeps(eles, starts, extra, visited + {t}, c, 0);
      var mid := EnterFrom(eles, t, 0, visited + {t});
      assert c.els[..|c.flows|] == w.els;
      StepOn(eles, starts, extra, visited, w, k, mid);
      SeeMore(eles.Keys, visited, mid);
      ScanKeeps(eles, starts, extra, mid, w, k + 1);
    }
  }

  /** At a start event that has not been entered. */
  lemma StartScan(eles: Index, starts: seq<string>, extra: map<string, nat>, visited: set<string>, n: nat)
    requires Closed(eles) && StartsKnown(eles, starts) && Blocks(eles, starts, extra) && n < |starts|
    requires Steady(eles, starts, extra, visited, [], []) && starts[n] !in visited
    requires forall p | 0 <= p < n :: starts[p] in visited
    ensures InScan(eles, starts, extra, visited + {starts[n]}, Way(n, [starts[n]], []), 0)
  {
    hide Closed, ScanTargets, Traced, Finished, EnteredBefore;
    var s := starts[n];
    var w, more := Way(n, [s], []), visited + {s};
    assert w.els[..0] == [] && Limits([]) + [0] == [0];
    forall v | v in more
      ensures && v in eles && Traced(eles, starts, extra, more, [s], [0], v)
              && (v !in [s] ==> Finished(eles, starts, more, v))
    {
      StartTrace(eles, starts, extra, visited, n, v);
      if v != s {
        FinishedMore(eles, starts, visited, more, v);
      }
    }
  }

  lemma StartTrace(eles: Index, starts: seq<string>, extra: map<string, nat>, visited: set<string>, n: nat, v: string)
    requires StartsKnown(eles, starts) && n < |starts| && starts[n] !in visited && v in visited + {starts[n]}
    requires v in visited ==> Traced(eles, starts, extra, visited, [], [], v)
    ensures Traced(eles, starts, extra, visited + {starts[n]}, [starts[n]], [0], v)
  {
    hide ScanTargets, Beyond;
    var s := starts[n];
    if v == s {
      assert Trace(eles, starts, extra, visited + {s}, [s], [0], Way(n, [s], []), s);
    } else {
      var o :| Trace(eles, starts, extra, visited, [], [], o, v);
      hide WayTo;
      assert Trace(eles, starts, extra, visited + {s}, [s], [0], o, v);
    }
  }

  lemma {:induction false} EnteredIsSteady(eles: Index, starts: seq<string>, extra: map<string, nat>, n: nat)
    requires Closed(eles) && StartsKnown(eles, starts) && Blocks(eles, starts, extra) && n <= |starts|
    ensures Steady(eles, starts, extra, Entered(eles, starts, n), [], [])
    ensures forall p | 0 <= p < n :: starts[p] in Entered(eles, starts, n)
  {
    hide Closed, Blocks, EnterFrom, Traced, Finished, ScanTargets;
    if n > 0 {
      EnteredIsSteady(eles, starts, extra, n - 1);
      var visited, s := Entered(eles, starts, n - 1), starts[n - 1];
      var w := Way(n - 1, [s], []);
      if s in visited {
        assert visited + {s} == visited;
        AlreadyScanned(eles, starts, s, visited);
      } else {
        hide Steady;
        StartScan(eles, starts, extra, visited, n - 1);
        ScanKeeps(eles, starts, extra, visited + {s}, w, 0);
        assert w.els[..0] == [] && Limits([]) == [];
      }
    }
  }

  /** Scanning a start event again changes nothing: its first flow has been followed. */
  lemma AlreadyScanned(eles: Index, starts: seq<string>, s: string, visited: set<string>)
    requires Closed(eles) && s in eles && Finished(eles, starts, visited, s)
    ensures EnterFrom(eles, s, 0, visited) == visited
  {
    hide Closed, ScanTargets;
    if |ScanTargets(eles, s)| > 0 {
      assert Kept(eles, starts, s, 0);
    }
  }

  // ---- What is entered, told from the flows ----

  /** A way along flows that nothing can stop the scan from following. */
  ghost predicate KeptWay(eles: Index, starts: seq<string>, w: Way) {
    IsWay(eles, starts, w) && w.els != [] && forall n | 0 <= n < |w.flows| :: Kept(eles, starts, w.els[n], w.flows[n])
  }

  ghost predicate KeptReached(eles: Index, starts: seq<string>, v: string) {
    exists w :: KeptWay(eles, starts, w) && End(w) == v
  }

  /** On every graph: what such flows lead to is entered. */
  lemma KeptIsEntered(eles: Index, starts: seq<string>, v: string)
    requires Closed(eles) && StartsKnown(eles, starts) && KeptReached(eles, starts, v)
    ensures v in Entered(eles, starts, |starts|)
  {
    hide Closed, Entered, Kept;
    EnteredIsSteady(eles, starts, map[], |starts|);
    var w :| KeptWay(eles, starts, w) && End(w) == v;
    hide Steady;
    SteadyFinished(eles, starts, map[], Entered(eles, starts, |starts|), [], []);
    hide Finished;
    KeptWayEntered(eles, starts, Entered(eles, starts, |starts|), w, |w.flows|);
  }

  lemma {:induction false} KeptWayEntered(eles: Index, starts: seq<string>, visited: set<string>, w: Way, n: nat)
    requires KeptWay(eles, starts, w) && n <= |w.flows| && (forall p | 0 <= p < |starts| :: starts[p] in visited)
    requires forall v | v in visited :: v in eles && Finished(eles, starts, visited, v)
    ensures w.els[n] in visited
  {
    hide ScanTargets, Kept;
    if n > 0 {
      KeptWayEntered(eles, starts, visited, w, n - 1);
      assert w.els[n - 1 + 1] == ScanTargets(eles, w.els[n - 1])[w.flows[n - 1]];
    }
  }

  /** On every graph: what can be come to only by flows of x listed after one into an element entered by then is never
      entered. */
  lemma LostBehind(eles: Index, starts: seq<string>, x: string, i: nat, z: string)
    requires Closed(eles) && StartsKnown(eles, starts) && x in eles && i < |ScanTargets(eles, x)|
    requires EnteredBefore(eles, starts, x, i) && OnlyBy(eles, starts, x, i + 1, z)
    ensures z !in Entered(eles, starts, |starts|)
  {
    hide Closed, Entered, EnteredBefore, ScanTargets, IsWay;
    var extra: map<string, nat> := map[x := i + 1];
    if z in Entered(eles, starts, |starts|) {
      EnteredWithinLimits(eles, starts, extra, z);
      var w :| WithinLimits(eles, starts, extra, w) && End(w) == z;
      LimitsAvoid(eles, starts, x, i + 1, w);
    }
  }

  lemma LimitsAvoid(eles: Index, starts: seq<string>, x: string, i: nat, w: Way)
    requires WithinLimits(eles, starts, map[x := i], w)
    ensures WayTo(eles, starts, w, End(w)) && forall n: nat :: !UsesAt(w, x, i, n)
  {
    hide ScanTargets;
  }

  predicate WithinLimits(eles: Index, starts: seq<string>, extra: map<string, nat>, w: Way) {
    IsWay(eles, starts, w) && |w.els| == |w.flows| + 1
    && forall n | 0 <= n < |w.flows| :: !Beyond(extra, w.els[n], w.flows[n])
  }

  lemma EnteredWithinLimits(eles: Index, starts: seq<string>, extra: map<string, nat>, v: string)
    requires Closed(eles) && StartsKnown(eles, starts) && Blocks(eles, starts, extra)
    requires v in Entered(eles, starts, |starts|)
    ensures exists w :: WithinLimits(eles, starts, extra, w) && End(w) == v
  {
    hide Closed, Entered, Blocks, Finished, Trace, Steady;
    var visited := Entered(eles, starts, |starts|);
    EnteredIsSteady(eles, starts, extra, |starts|);
    SteadyTraced(eles, starts, extra, visited, [], [], v);
    var t :| Trace(eles, starts, extra, visited, [], [], t, v);
    TraceWithin(eles, starts, extra, visited, t, v);
  }

  lemma TraceWithin(eles: Index, starts: seq<string>, extra: map<string, nat>, visited: set<string>, t: Way, v: string)
    requires Trace(eles, starts, extra, visited, [], [], t, v)
    ensures WithinLimits(eles, starts, extra, t) && End(t) == v
  {
    hide ScanTargets, Beyond;
  }

  /** Of every flow listed before another it can be told whether it stops the scan: it leads to something that cannot
      have been entered yet, or to something that has been entered by then. */
  ghost predicate Decided(eles: Index, starts: seq<string>)
    requires Closed(eles)
  {
    forall x, i: nat | x in eles && ReachedFrom(eles, starts, x) && i < |ScanTargets(eles, x)| - 1 ::
      NotYet(eles, starts, x, i) || EnteredBefore(eles, starts, x, i)
  }

  ghost predicate Stopper(eles: Index, starts: seq<string>, x: string, i: nat) {
    x in eles && i < |ScanTargets(eles, x)| && EnteredBefore(eles, starts, x, i)
  }

  /** The least of the numbers below n that are in the set, or n. */
  function First(s: set<nat>, n: nat): (i: nat)
    ensures i <= n && (forall m | 0 <= m < i :: m !in s) && (i < n ==> i in s)
  {
    if n == 0 then 0
    else
      var i := First(s, n - 1);
      if i < n - 1 || n - 1 in s then i else n
  }

  ghost function Stoppers(eles: Index, starts: seq<string>, x: string): set<nat>
    requires x in eles
  {
    set i: nat | i < |ScanTargets(eles, x)| && Stopper(eles, starts, x, i)
  }

  ghost function FirstStopper(eles: Index, starts: seq<string>, x: string): (i: nat)
    requires x in eles
  {
    First(Stoppers(eles, starts, x), |ScanTargets(eles, x)|)
  }

  ghost function StopLimits(eles: Index, starts: seq<string>): (extra: map<string, nat>) {
    map x | x in eles && FirstStopper(eles, starts, x) < |ScanTargets(eles, x)| :: FirstStopper(eles, starts, x) + 1
  }

  lemma FirstStopperIs(eles: Index, starts: seq<string>, x: string)
    requires x in eles
    ensures var i := FirstStopper(eles, starts, x);
            && i <= |ScanTargets(eles, x)| && (forall m: nat | m < i :: !Stopper(eles, starts, x, m))
            && (i < |ScanTargets(eles, x)| ==> Stopper(eles, starts, x, i))
  {
    hide Stopper, ScanTargets;
    var i := FirstStopper(eles, starts, x);
    forall m: nat | m < i
      ensures !Stopper(eles, starts, x, m)
    {
      assert m !in Stoppers(eles, starts, x);
    }
  }

  lemma StopLimitsBlock(eles: Index, starts: seq<string>)
    ensures Blocks(eles, starts, StopLimits(eles, starts))
  {
    hide EnteredBefore, ScanTargets, FirstStopper;
    forall x | x in StopLimits(eles, starts)
      ensures Stopper(eles, starts, x, StopLimits(eles, starts)[x] - 1)
    {
      FirstStopperIs(eles, starts, x);
    }
  }

  lemma WithinStopLimits(eles: Index, starts: seq<string>, x: string, m: nat)
    requires Closed(eles) && Decided(eles, starts) && x in eles && ReachedFrom(eles, starts, x)
    requires m < |ScanTargets(eles, x)| && !Beyond(StopLimits(eles, starts), x, m)
    ensures Kept(eles, starts, x, m)
  {
    hide Closed, EnteredBefore, NotYet, ScanTargets, ReachedFrom, FirstStopper;
    FirstStopperIs(eles, starts, x);
    forall i: nat | i < m
      ensures NotYet(eles, starts, x, i)
    {
      assert !Stopper(eles, starts, x, i);
    }
  }

  lemma {:induction false} WayReached(eles: Index, starts: seq<string>, w: Way, n: nat)
    requires Closed(eles) && StartsKnown(eles, starts) && IsWay(eles, starts, w) && n < |w.els|
    ensures w.els[n] in Reached(eles, starts)
  {
    hide Closed, ScanTargets, ReachedFrom;
    if n == 0 {
      ReachedIsWithin(eles, starts);
    } else {
      WayReached(eles, starts, w, n - 1);
      assert w.els[n - 1 + 1] == ScanTargets(eles, w.els[n - 1])[w.flows[n - 1]];
      ReachedFurther(eles, starts, w.els[n - 1], w.els[n]);
    }
  }

  /** Where the flows are decided, the scan enters exactly what can be come to without a flow listed after one that
      stops it. */
  lemma EnteredIffKept(eles: Index, starts: seq<string>, v: string)
    requires Closed(eles) && StartsKnown(eles, starts) && Decided(eles, starts)
    ensures v in Entered(eles, starts, |starts|) <==> KeptReached(eles, starts, v)
  {
    hide Closed, Entered, Decided, IsWay, Kept, StopLimits, Reached;
    if KeptReached(eles, starts, v) {
      KeptIsEntered(eles, starts, v);
    }
    if v in Entered(eles, starts, |starts|) {
      var extra := StopLimits(eles, starts);
      StopLimitsBlock(eles, starts);
      EnteredWithinLimits(eles, starts, extra, v);
      var w :| WithinLimits(eles, starts, extra, w) && End(w) == v;
      LimitsKeep(eles, starts, w);
    }
  }

  lemma LimitsKeep(eles: Index, starts: seq<string>, w: Way)
    requires Closed(eles) && StartsKnown(eles, starts) && Decided(eles, starts)
    requires WithinLimits(eles, starts, StopLimits(eles, starts), w)
    ensures KeptWay(eles, starts, w)
  {
    hide Closed, Decided, Kept, StopLimits, ReachedFrom, ScanTargets, Beyond;
    forall n | 0 <= n < |w.flows|
      ensures Kept(eles, starts, w.els[n], w.flows[n])
    {
      WayReached(eles, starts, w, n);
      WithinStopLimits(eles, starts, w.els[n], w.flows[n]);
    }
  }

  /** No flow listed before another can stop the scan. */
  ghost predicate EarlyFlowsFree(eles: Index, starts: seq<string>)
    requires Closed(eles)
  {
    forall x, i: nat | x in eles && ReachedFrom(eles, starts, x) && i < |ScanTargets(eles, x)| - 1 ::
      NotYet(eles, starts, x, i)
  }

  /** Then the scan enters everything reachable. */
  lemma EntersAllReached(eles: Index, starts: seq<string>, v: string)
    requires Closed(eles) && StartsKnown(eles, starts) && EarlyFlowsFree(eles, starts) && ReachedFrom(eles, starts, v)
    ensures v in Entered(eles, starts, |starts|)
  {
    hide Closed, Entered, EarlyFlowsFree, ScanTargets, ScanGraph;
    var s :| s in starts && Reaches(ScanGraph(eles), s, v);
    var q :| WalkBetween(ScanGraph(eles), q, s, v);
    FreeWalk(eles, starts, q, |q| - 1);
  }

  lemma {:induction false} FreeWalk(eles: Index, starts: seq<string>, q: seq<string>, n: nat)
    requires Closed(eles) && StartsKnown(eles, starts) && EarlyFlowsFree(eles, starts)
    requires IsWalk(ScanGraph(eles), q) && q[0] in starts && n < |q|
    ensures q[n] in Entered(eles, starts, |starts|)
  {
    hide Closed, Entered, Steady, ReachedFrom, NotYet;
    var visited := Entered(eles, starts, |starts|);
    EnteredIsSteady(eles, starts, map[], |starts|);
    if n > 0 {
      FreeWalk(eles, starts, q, n - 1);
      EnteredIsReached(eles, starts);
      SteadyFinished(eles, starts, map[], visited, [], []);
      assert Edge(ScanGraph(eles), q[n - 1], q[n - 1 + 1]);
      var k :| 0 <= k < |ScanTargets(eles, q[n - 1])| && ScanTargets(eles, q[n - 1])[k] == q[n];
      assert Kept(eles, starts, q[n - 1], k);
    }
  }

  /** The i-th flow of x is the only one into its target, which is not a start event: a condition on single flows. */
  predicate PrivateFlow(eles: Index, starts: seq<string>, x: string, i: nat)
    requires x in eles && i < |ScanTargets(eles, x)|
  {
    && ScanTargets(eles, x)[i] !in starts
    && forall u, j | u in eles && 0 <= j < |ScanTargets(eles, u)|
      && ScanTargets(eles, u)[j] == ScanTargets(eles, x)[i] ::
         u == x && j == i
  }

  lemma PrivateIsNotYet(eles: Index, starts: seq<string>, x: string, i: nat)
    requires x in eles && i < |ScanTargets(eles, x)| && PrivateFlow(eles, starts, x, i)
    ensures NotYet(eles, starts, x, i)
  {
    hide ScanTargets;
    var t := ScanTargets(eles, x)[i];
    forall w | WayTo(eles, starts, w, t)
      ensures exists n: nat :: UsesAt(w, x, i, n)
    {
      var n := |w.flows| - 1;
      assert n >= 0;
      assert w.els[n + 1] == t && ScanTargets(eles, w.els[n])[w.flows[n]] == t;
      assert UsesAt(w, x, i, n);
    }
  }
}
