/** The process model: the parts of the workflow records that the graph passes read or write. */
module Model {

  datatype Option<+T> = None | Some(value: T)

  datatype ElementType =
    | StartEvent
    | TimedStartEvent
    | EndEvent
    | CompensateEndEvent
    | Gateway
    | LinkThrow
    | LinkCatch
    | Other(name: string)

  datatype GatewayType = Exclusive | Inclusive | Parallel

  datatype Direction = Divergent | Convergent

  datatype GatewaySpec = GatewaySpec(
    kind: GatewayType,
    direction: Direction,
    reciprocalId: string,
    fixedExpectations: seq<string>)

  datatype Target = Target(target: string, conditions: seq<string>)

  /** A timer on the boundary of an element. When it goes off before the element is done, the run goes to its target. */
  datatype Timer = Timer(target: string)

  datatype CatchError = CatchError(target: string, outputTransform: map<string, string>)

  /** `outbound` is None where the source has a nil pointer: an element without outgoing flows.
      `process` holds the elements of an embedded sub-process, empty when there is none. */
  datatype Element = Element(
    id: string,
    typ: ElementType,
    execute: string,
    gateway: Option<GatewaySpec>,
    outbound: Option<seq<Target>>,
    errors: seq<CatchError>,
    timers: seq<Timer>,
    inputTransform: map<string, string>,
    outputTransform: map<string, string>,
    process: seq<Element>)
  {
    predicate IsJoin() {
      typ.Gateway? && gateway.Some? && gateway.value.direction.Convergent?
    }

    predicate IsSplit() {
      typ.Gateway? && gateway.Some? && gateway.value.direction.Divergent?
    }

    function Targets(): (ts: seq<string>) {
      if outbound.None? then [] else TargetIds(outbound.value)
    }
  }

  function TargetIds(ts: seq<Target>): (ids: seq<string>)
    ensures |ids| == |ts|
    ensures forall i | 0 <= i < |ts| :: ids[i] == ts[i].target
  {
    seq(|ts|, i requires 0 <= i < |ts| => ts[i].target)
  }

  type Index = map<string, Element>

  /** Every element is stored under its own id. */
  predicate IdsMatch(eles: Index) {
    forall x | x in eles :: eles[x].id == x
  }

  /** An element of which only the type, the name of a link and the flows matter. */
  function Plain(id: string, typ: ElementType, execute: string, targets: seq<string>): (e: Element)
    ensures e.Targets() == targets && e.id == id && e.typ == typ && e.execute == execute && e.errors == []
    ensures e.timers == []
  {
    var ts := seq(|targets|, i requires 0 <= i < |targets| => Target(targets[i], []));
    var e := Element(id, typ, execute, None, if targets == [] then None else Some(ts), [], [], map[], map[], []);
    assert e.Targets() == targets;
    e
  }
}
