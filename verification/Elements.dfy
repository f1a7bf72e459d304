/** The element index that all graph passes rely on (common/elementutil.go). */
module Elements {
  import opened Model

  /** The elements of a process and of all its embedded sub-processes, in document order. */
  function Flatten(elements: seq<Element>): (flat: seq<Element>) {
    if elements == [] then []
    else [elements[0]] + Flatten(elements[0].process) + Flatten(elements[1..])
  }

  /** Entering elements one by one: a later element takes the place of an earlier one with its id. */
  function Enter(flat: seq<Element>, el: Index): (r: Index) {
    if flat == [] then el else Enter(flat[1..], el[flat[0].id := flat[0]])
  }

  lemma {:induction false} EnterAppend(a: seq<Element>, b: seq<Element>, el: Index)
    ensures Enter(a + b, el) == Enter(b, Enter(a, el))
  {
    if a == [] {
      assert a + b == b;
    } else {
      assert (a + b)[1..] == a[1..] + b;
      EnterAppend(a[1..], b, el[a[0].id := a[0]]);
    }
  }

  method IndexProcessElements(elements: seq<Element>, el: Index) returns (r: Index)
    ensures r == Enter(Flatten(elements), el)
    decreases elements
  {
    r := el;
    for i := 0 to |elements|
      invariant Enter(Flatten(elements[i..]), r) == Enter(Flatten(elements), el)
    {
      var e := elements[i];
      var rest := elements[i..];
      EnterAppend([e] + Flatten(e.process), Flatten(rest[1..]), r);
      EnterAppend([e], Flatten(e.process), r);
      assert rest[1..] == elements[i + 1..];
      r := r[e.id := e];
      r := IndexProcessElements(e.process, r);
    }
  }

  /** The index holds exactly the ids of the flattened process, each with its last element. */
  lemma {:induction false} EnterLooksUpLast(flat: seq<Element>, el: Index, x: string)
    ensures x in Enter(flat, el) <==> x in el || exists i :: 0 <= i < |flat| && flat[i].id == x
    ensures x in Enter(flat, el) ==>
              || (x in el && Enter(flat, el)[x] == el[x] && forall i | 0 <= i < |flat| :: flat[i].id != x)
              || exists i :: 0 <= i < |flat| && flat[i] == Enter(flat, el)[x] && flat[i].id == x
                             && forall j | i < j < |flat| :: flat[j].id != x
  {
    if flat != [] {
      var rest, el1 := flat[1..], el[flat[0].id := flat[0]];
      EnterLooksUpLast(rest, el1, x);
      if i :| 0 <= i < |rest| && rest[i].id == x {
        assert flat[i + 1].id == x;
      }
      if x in Enter(flat, el) {
        if i :| 0 <= i < |rest| && rest[i] == Enter(rest, el1)[x] && rest[i].id == x
                && forall j | i < j < |rest| :: rest[j].id != x {
          assert flat[i + 1] == Enter(flat, el)[x] && flat[i + 1].id == x;
          assert forall j | i + 1 < j < |flat| :: flat[j] == rest[j - 1];
        } else {
          assert forall j | 0 < j < |flat| :: flat[j] == rest[j - 1];
          if x == flat[0].id {
            assert flat[0] == Enter(flat, el)[x];
          }
        }
      }
    }
  }

  lemma IndexedUnderOwnId(flat: seq<Element>)
    ensures IdsMatch(Enter(flat, map[]))
  {
    forall x | x in Enter(flat, map[])
      ensures Enter(flat, map[])[x].id == x
    {
      EnterLooksUpLast(flat, map[], x);
    }
  }

  /** The element at an address: a position in the process, then one in the sub-process there, and so on. */
  function At(elements: seq<Element>, address: seq<nat>): (e: Option<Element>)
    decreases |address|
  {
    if address == [] || address[0] >= |elements| then None
    else if |address| == 1 then Some(elements[address[0]])
    else At(elements[address[0]].process, address[1..])
  }

  lemma AtFirst(elements: seq<Element>, a: seq<nat>)
    requires elements != []
    ensures At(elements, [0]) == Some(elements[0])
    ensures a != [] ==> At(elements, [0] + a) == At(elements[0].process, a)
  {
    hide At;
    assert ([0] + a)[1..] == a;
    AtIs(elements, [0]);
    AtIs(elements, [0] + a);
  }

  lemma AtIs(elements: seq<Element>, address: seq<nat>)
    ensures if address == [] || address[0] >= |elements| then At(elements, address) == None
            else if |address| == 1 then At(elements, address) == Some(elements[address[0]])
            else At(elements, address) == At(elements[address[0]].process, address[1..])
  {
  }

  lemma FlattenIs(elements: seq<Element>, e: Element)
    requires elements != []
    ensures e in Flatten(elements) <==>
            e == elements[0] || e in Flatten(elements[0].process) || e in Flatten(elements[1..])
  {
  }

  lemma {:induction false} AddressOf(elements: seq<Element>, e: Element) returns (address: seq<nat>)
    requires e in Flatten(elements)
    ensures address != [] && At(elements, address) == Some(e)
    decreases elements
  {
    assert elements != [];
    FlattenIs(elements, e);
    hide Flatten, At;
    if e == elements[0] {
      AtFirst(elements, []);
      address := [0];
    } else if e in Flatten(elements[0].process) {
      var a := AddressOf(elements[0].process, e);
      AtFirst(elements, a);
      address := [0] + a;
    } else {
      var a := AddressOf(elements[1..], e);
      FurtherDown(elements, a);
      address := [a[0] + 1] + a[1..];
    }
  }

  lemma {:induction false} AddressedIsFlat(elements: seq<Element>, address: seq<nat>)
    requires At(elements, address).Some?
    ensures At(elements, address).value in Flatten(elements)
    decreases elements
  {
    hide Flatten, At;
    AtIs(elements, address);
    FlattenIs(elements, At(elements, address).value);
    var n, below := address[0], address[1..];
    if n > 0 {
      var a := [n - 1] + below;
      assert a[1..] == below && [a[0] + 1] + below == address;
      FurtherDown(elements, a);
      AddressedIsFlat(elements[1..], a);
    } else if below != [] {
      assert [0] + below == address;
      AtFirst(elements, below);
      AddressedIsFlat(elements[0].process, below);
    }
  }

  /** The flattened process holds the elements at all depths, and no others. */
  lemma FlattenHoldsAll(elements: seq<Element>, e: Element)
    ensures e in Flatten(elements) <==> exists address :: At(elements, address) == Some(e)
  {
    hide Flatten, At;
    if e in Flatten(elements) {
      var a := AddressOf(elements, e);
    }
    if a :| At(elements, a) == Some(e) {
      AddressedIsFlat(elements, a);
    }
  }

  lemma FurtherDown(elements: seq<Element>, a: seq<nat>)
    requires elements != [] && a != []
    ensures At(elements[1..], a) == At(elements, [a[0] + 1] + a[1..])
  {
    hide At;
    var b := [a[0] + 1] + a[1..];
    assert b[1..] == a[1..] && |b| == |a|;
    AtIs(elements[1..], a);
    AtIs(elements, b);
  }

  /** However deep an element lies, its id is in the index. */
  lemma IndexedAtAnyDepth(elements: seq<Element>, address: seq<nat>)
    requires At(elements, address).Some?
    ensures At(elements, address).value.id in Enter(Flatten(elements), map[])
  {
    hide Flatten, At, Enter;
    var e := At(elements, address).value;
    AddressedIsFlat(elements, address);
    var flat := Flatten(elements);
    var i :| 0 <= i < |flat| && flat[i] == e;
    EnterLooksUpLast(flat, map[], e.id);
  }

  lemma TopLevelIsIndexed(elements: seq<Element>, i: nat)
    requires i < |elements|
    ensures elements[i].id in Enter(Flatten(elements), map[])
  {
    hide Flatten, Enter;
    IndexedAtAnyDepth(elements, [i]);
  }

  function IndexOf(elements: seq<Element>, typ: ElementType): (n: nat)
    ensures n <= |elements|
    ensures n < |elements| ==> elements[n].typ == typ
    ensures forall i | 0 <= i < n :: elements[i].typ != typ
  {
    if elements == [] || elements[0].typ == typ then 0 else 1 + IndexOf(elements[1..], typ)
  }

  /** The ids of the elements of one type, in document order and once for each element. */
  function IdsWithType(elements: seq<Element>, typ: ElementType): (ids: seq<string>) {
    if elements == [] then []
    else (if elements[0].typ == typ then [elements[0].id] else []) + IdsWithType(elements[1..], typ)
  }

  lemma {:induction false} IdsWithTypeAre(elements: seq<Element>, typ: ElementType, x: string)
    ensures x in IdsWithType(elements, typ) <==>
            exists i :: 0 <= i < |elements| && elements[i].typ == typ && elements[i].id == x
  {
    if elements != [] {
      var rest := elements[1..];
      IdsWithTypeAre(rest, typ, x);
      if i :| 0 <= i < |rest| && rest[i].typ == typ && rest[i].id == x {
        assert elements[i + 1] == rest[i];
      }
      if i :| 0 < i < |elements| && elements[i].typ == typ && elements[i].id == x {
        assert rest[i - 1] == elements[i];
      }
    }
  }

  lemma {:induction false} IdsBeyond(elements: seq<Element>, typ: ElementType)
    ensures var n := IndexOf(elements, typ);
            IdsWithType(elements, typ)
            == if n == |elements| then [] else [elements[n].id] + IdsWithType(elements[n + 1..], typ)
  {
    if elements != [] && elements[0].typ != typ {
      IdsBeyond(elements[1..], typ);
      var n := IndexOf(elements[1..], typ);
      assert n < |elements[1..]| ==> elements[1..][n + 1..] == elements[n + 2..];
    }
  }

  /** The search goes on behind each element found (client/parser/parser.go). */
  function FindElementIdsWithType(ids: seq<string>, typ: ElementType, elements: seq<Element>): (r: seq<string>)
    ensures r == ids + IdsWithType(elements, typ)
    decreases |elements|
  {
    var n := IndexOf(elements, typ);
    IdsBeyond(elements, typ);
    if n == |elements| then ids
    else FindElementIdsWithType(ids + [elements[n].id], typ, elements[n + 1..])
  }
}
