/** Records: which leaf instances a record has, and in what order they lie, told from the
    template and the values of the length elements alone. */
module StructRecord {
  import opened Base
  import opened StructWalk

  datatype Name = Name(name: seq<byte>, value: seq<byte>)

  datatype Value = Raw(data: seq<byte>) | Names(list: seq<Name>)

  /** Integers are little endian in records, as on the machine the program runs on. */
  type Record = map<Loc, Value>

  // ------------------------------------------------------------------------
  // Lengths

  /** The number in a length element: signed, of one, two or four bytes, of which the first
      is the lowest; TPM_TYPE_UINT16 is unsigned. */
  function Number(kind: Kind, v: Value): Option<int> {
    match (kind, v)
    case (Scalar(w), Raw(d)) =>
      if |d| != w then None
      else if w == 1 then
        var u: int := d[0];
        Some(if u < 0x80 then u else u - 0x100)
      else if w == 2 then
        var b0: int, b1: int := d[0], d[1];
        var u := b0 + 0x100 * b1;
        Some(if u < 0x8000 then u else u - 0x1_0000)
      else if w >= 4 then
        var b0: int, b1: int, b2: int, b3: int := d[0], d[1], d[2], d[3];
        var u := b0 + 0x100 * b1 + 0x1_0000 * b2 + 0x100_0000 * b3;
        Some(if u < 0x8000_0000 then u else u - 0x1_0000_0000)
      else None
    case (Tpm16, Raw(d)) =>
      if |d| != 2 then None
      else
        var b0: int, b1: int := d[0], d[1];
        Some(b0 + 0x100 * b1)
    case _ => None
  }

  /** The length that a define element at `at` has in the record; none if its length element is
      not there or negative. */
  function Length(root: Node, m: Record, e: Elem, at: Loc): Option<nat> {
    var def := DefLoc(e.def, at);
    if !ValidElem(root, e.def) || def !in m then None
    else
      match Number(ElemAt(root, e.def).kind, m[def])
      case None => None
      case Some(n) => if n < 0 then None else Some(n)
  }

  /** How often an element at `at` is there: as its length element says, or as the template
      says, where a count of zero stands for one. */
  function Repeats(root: Node, m: Record, e: Elem, at: Loc): Option<nat> {
    match e.kind
    case DefArray => Length(root, m, e, at)
    case SubStruct(count) => Some(if count == 0 then 1 else count)
    case FixArray(count) => Some(if count == 0 then 1 else count)
    case _ => Some(1)
  }

  /** How many bytes, strings, uuids or names a leaf at `at` has, where its length element
      tells; for all other leaves the type tells. */
  function Entries(root: Node, m: Record, e: Elem, at: Loc): Option<nat> {
    match e.kind
    case Define => Length(root, m, e, at)
    case DefStrArray(_) => Length(root, m, e, at)
    case DefUuidArray => Length(root, m, e, at)
    case DefNameList => Length(root, m, e, at)
    case _ => Some(0)
  }

  // ------------------------------------------------------------------------
  // Instances

  /** On the way to the instance every repetition is one that the record has. */
  ghost predicate HasInstance(root: Node, m: Record, loc: Loc) {
    loc.Top? ||
    (&& HasInstance(root, m, loc.up) && ValidNode(root, PathOf(loc.up))
     && loc.i < |NodeAt(root, PathOf(loc.up)).elems|
     && var n := Repeats(root, m, NodeAt(root, PathOf(loc.up)).elems[loc.i], At(loc.up, loc.i, 0));
     n.Some? && loc.j < n.value)
  }

  /** A leaf of the record. */
  ghost predicate LeafOf(root: Node, m: Record, loc: Loc) {
    && loc.At? && HasInstance(root, m, loc)
    && !NodeAt(root, PathOf(loc.up)).elems[loc.i].kind.IsSubset()
  }

  /** The record has a value for each of its leaves and for nothing else. */
  ghost predicate Whole(root: Node, m: Record) {
    forall loc :: loc in m <==> LeafOf(root, m, loc)
  }

  /** All elements, or those that share a bit with a flag. */
  datatype Selection = All | Sharing(flag: bv32)

  /** The element of the instance and every element above it are selected. */
  ghost predicate Chosen(root: Node, sel: Selection, loc: Loc)
    requires loc.At? ==> ValidNode(root, PathOf(loc.up)) && loc.i < |NodeAt(root, PathOf(loc.up)).elems|
  {
    loc.Top? ||
    (&& (loc.up.At? ==> ValidNode(root, PathOf(loc.up.up)) && loc.up.i < |NodeAt(root, PathOf(loc.up.up)).elems|)
     && Chosen(root, sel, loc.up)
     && (sel.All? || NodeAt(root, PathOf(loc.up)).elems[loc.i].flag & sel.flag != 0))
  }

  // ------------------------------------------------------------------------
  // The order of the leaves

  /** The selected leaves of the elements `i` and on of the node instance `loc`, or nothing if a
      length is missing. */
  function Order(root: Node, m: Record, sel: Selection, node: Node, i: nat, loc: Loc): Option<seq<Loc>>
    requires i <= |node.elems|
    decreases node, |node.elems| - i, 0
  {
    if i == |node.elems| then Some([])
    else
      match OrderElem(root, m, sel, node.elems[i], i, loc)
      case None => None
      case Some(a) =>
        match Order(root, m, sel, node, i + 1, loc)
        case None => None
        case Some(b) => Some(a + b)
  }

  function OrderElem(root: Node, m: Record, sel: Selection, e: Elem, i: nat, loc: Loc): Option<seq<Loc>>
    decreases e, 1, 0
  {
    if sel.Sharing? && e.flag & sel.flag == 0 then Some([])
    else if !e.kind.IsSubset() then Some([At(loc, i, 0)])
    else
      match Repeats(root, m, e, At(loc, i, 0))
      case None => None
      case Some(n) => OrderRepeats(root, m, sel, e, i, loc, 0, n)
  }

  /** Repetitions `j` and on, one behind the other. */
  function OrderRepeats(root: Node, m: Record, sel: Selection, e: Elem, i: nat, loc: Loc, j: nat, n: nat): Option<seq<Loc>>
    decreases e, 0, n - j
  {
    if j >= n then Some([])
    else
      match Order(root, m, sel, e.ref, 0, At(loc, i, j))
      case None => None
      case Some(a) =>
        match OrderRepeats(root, m, sel, e, i, loc, j + 1, n)
        case None => None
        case Some(b) => Some(a + b)
  }

  /** `x` is below element `i` or a later one of the node instance `loc`. */
  ghost predicate BelowElems(loc: Loc, i: nat, x: Loc) {
    x.At? && ((x.up == loc && x.i >= i) || BelowElems(loc, i, x.up))
  }

  /** `x` is repetition `j` or a later one of element `i`, or below such a one. */
  ghost predicate BelowRepeats(loc: Loc, i: nat, j: nat, x: Loc) {
    x.At? && ((x.up == loc && x.i == i && x.j >= j) || BelowRepeats(loc, i, j, x.up))
  }

  lemma {:induction false} BelowSplit(loc: Loc, i: nat, x: Loc)
    ensures BelowElems(loc, i, x) <==> BelowRepeats(loc, i, 0, x) || BelowElems(loc, i + 1, x)
  {
    if x.At? { BelowSplit(loc, i, x.up); }
  }

  lemma {:induction false} RepeatSplit(loc: Loc, i: nat, j: nat, x: Loc)
    ensures BelowRepeats(loc, i, j, x) <==> x == At(loc, i, j) || BelowElems(At(loc, i, j), 0, x) || BelowRepeats(loc, i, j + 1, x)
  {
    if x.At? { RepeatSplit(loc, i, j, x.up); }
  }

  /** The repetition of element `i` that leads to `x`. */
  lemma {:induction false} WayTo(root: Node, m: Record, sel: Selection, loc: Loc, i: nat, j: nat, x: Loc) returns (k: nat)
    requires BelowRepeats(loc, i, j, x) && HasInstance(root, m, x)
    ensures k >= j && HasInstance(root, m, At(loc, i, k))
    ensures x == At(loc, i, k) || BelowElems(At(loc, i, k), 0, x)
    ensures x != At(loc, i, k) ==> ValidNode(root, PathOf(At(loc, i, k)))
    ensures Chosen(root, sel, x) ==> Chosen(root, sel, At(loc, i, k))
    decreases x
  {
    if x.up == loc && x.i == i && x.j >= j {
      k := x.j;
    } else {
      k := WayTo(root, m, sel, loc, i, j, x.up);
      InstanceNode(root, m, x);
    }
  }

  lemma InstanceNode(root: Node, m: Record, x: Loc)
    requires x.At? && HasInstance(root, m, x)
    ensures ValidNode(root, PathOf(x.up))
  {
  }

  /** The leaves of the record that the selection takes. */
  ghost predicate Taken(root: Node, m: Record, sel: Selection, x: Loc) { LeafOf(root, m, x) && Chosen(root, sel, x) }

  /** The order holds exactly the leaves of the record that are selected. */
  lemma {:induction false} OrderExact(root: Node, m: Record, sel: Selection, node: Node, i: nat, loc: Loc, x: Loc)
    requires ValidNode(root, PathOf(loc)) && NodeAt(root, PathOf(loc)) == node && i <= |node.elems|
    requires HasInstance(root, m, loc) && Chosen(root, sel, loc)
    requires Order(root, m, sel, node, i, loc).Some?
    ensures x in Order(root, m, sel, node, i, loc).value <==> BelowElems(loc, i, x) && Taken(root, m, sel, x)
    decreases node, |node.elems| - i, 0
  {
    if i == |node.elems| {
      if BelowElems(loc, i, x) && HasInstance(root, m, x) { NoneBehind(root, m, loc, i, x); }
    } else {
      hide Taken;
      OrderElemExact(root, m, sel, node.elems[i], i, loc, x);
      OrderExact(root, m, sel, node, i + 1, loc, x);
      BelowSplit(loc, i, x);
    }
  }

  lemma {:induction false} NoneBehind(root: Node, m: Record, loc: Loc, i: nat, x: Loc)
    requires ValidNode(root, PathOf(loc)) && i == |NodeAt(root, PathOf(loc)).elems|
    requires BelowElems(loc, i, x) && HasInstance(root, m, x)
    ensures false
    decreases x
  {
    if !(x.up == loc && x.i >= i) { NoneBehind(root, m, loc, i, x.up); }
  }

  lemma {:induction false} OrderElemExact(root: Node, m: Record, sel: Selection, e: Elem, i: nat, loc: Loc, x: Loc)
    requires ValidNode(root, PathOf(loc)) && i < |NodeAt(root, PathOf(loc)).elems| && NodeAt(root, PathOf(loc)).elems[i] == e
    requires HasInstance(root, m, loc) && Chosen(root, sel, loc)
    requires OrderElem(root, m, sel, e, i, loc).Some?
    ensures x in OrderElem(root, m, sel, e, i, loc).value <==> BelowRepeats(loc, i, 0, x) && Taken(root, m, sel, x)
    decreases e, 1, 0
  {
    hide Taken, Chosen, HasInstance, BelowRepeats;
    if sel.Sharing? && e.flag & sel.flag == 0 {
      SkippedExact(root, m, sel, e, i, loc, x);
    } else if !e.kind.IsSubset() {
      LeafExact(root, m, sel, e, i, loc, x);
    } else {
      var n := Repeats(root, m, e, At(loc, i, 0)).value;
      OrderRepeatsExact(root, m, sel, e, i, loc, 0, n, x);
    }
  }

  lemma SkippedExact(root: Node, m: Record, sel: Selection, e: Elem, i: nat, loc: Loc, x: Loc)
    requires ValidNode(root, PathOf(loc)) && i < |NodeAt(root, PathOf(loc)).elems| && NodeAt(root, PathOf(loc)).elems[i] == e
    requires sel.Sharing? && e.flag & sel.flag == 0
    ensures !(BelowRepeats(loc, i, 0, x) && Taken(root, m, sel, x))
  {
    if BelowRepeats(loc, i, 0, x) && HasInstance(root, m, x) {
      var k := WayTo(root, m, sel, loc, i, 0, x);
      NotChosen(root, sel, At(loc, i, k));
    }
  }

  lemma LeafExact(root: Node, m: Record, sel: Selection, e: Elem, i: nat, loc: Loc, x: Loc)
    requires ValidNode(root, PathOf(loc)) && i < |NodeAt(root, PathOf(loc)).elems| && NodeAt(root, PathOf(loc)).elems[i] == e
    requires HasInstance(root, m, loc) && Chosen(root, sel, loc) && !e.kind.IsSubset()
    requires sel.All? || e.flag & sel.flag != 0
    ensures x == At(loc, i, 0) <==> BelowRepeats(loc, i, 0, x) && Taken(root, m, sel, x)
  {
    if x == At(loc, i, 0) {
      ChosenHere(root, m, sel, x);
    }
    if BelowRepeats(loc, i, 0, x) && HasInstance(root, m, x) {
      OnlyOnce(root, m, sel, e, i, loc, x);
    }
  }

  lemma OnlyOnce(root: Node, m: Record, sel: Selection, e: Elem, i: nat, loc: Loc, x: Loc)
    requires ValidNode(root, PathOf(loc)) && i < |NodeAt(root, PathOf(loc)).elems| && NodeAt(root, PathOf(loc)).elems[i] == e
    requires !e.kind.IsSubset() && BelowRepeats(loc, i, 0, x) && HasInstance(root, m, x)
    ensures x == At(loc, i, 0)
  {
    hide Chosen, BelowRepeats;
    var k := WayTo(root, m, sel, loc, i, 0, x);
    assert PathOf(At(loc, i, k)) == Step(PathOf(loc), i);
  }

  lemma NotChosen(root: Node, sel: Selection, x: Loc)
    requires x.At? && ValidNode(root, PathOf(x.up)) && x.i < |NodeAt(root, PathOf(x.up)).elems|
    requires sel.Sharing? && NodeAt(root, PathOf(x.up)).elems[x.i].flag & sel.flag == 0
    ensures !Chosen(root, sel, x)
  {
  }

  lemma ChosenHere(root: Node, m: Record, sel: Selection, x: Loc)
    requires x.At? && HasInstance(root, m, x.up) && ValidNode(root, PathOf(x.up)) && x.i < |NodeAt(root, PathOf(x.up)).elems|
    requires Chosen(root, sel, x.up)
    requires sel.All? || NodeAt(root, PathOf(x.up)).elems[x.i].flag & sel.flag != 0
    ensures Chosen(root, sel, x)
  {
  }

  lemma {:induction false} OrderRepeatsExact(root: Node, m: Record, sel: Selection, e: Elem, i: nat, loc: Loc, j: nat, n: nat, x: Loc)
    requires ValidNode(root, PathOf(loc)) && i < |NodeAt(root, PathOf(loc)).elems| && NodeAt(root, PathOf(loc)).elems[i] == e
    requires HasInstance(root, m, loc) && Chosen(root, sel, loc) && e.kind.IsSubset()
    requires sel.All? || e.flag & sel.flag != 0
    requires Repeats(root, m, e, At(loc, i, 0)) == Some(n)
    requires OrderRepeats(root, m, sel, e, i, loc, j, n).Some?
    ensures x in OrderRepeats(root, m, sel, e, i, loc, j, n).value <==> BelowRepeats(loc, i, j, x) && Taken(root, m, sel, x)
    decreases e, 0, n - j
  {
    if j >= n {
      if BelowRepeats(loc, i, j, x) && HasInstance(root, m, x) {
        var k := WayTo(root, m, sel, loc, i, j, x);
      }
    } else {
      var here := At(loc, i, j);
      ChosenHere(root, m, sel, here);
      OrderExact(root, m, sel, e.ref, 0, here, x);
      OrderRepeatsExact(root, m, sel, e, i, loc, j + 1, n, x);
      RepeatSplit(loc, i, j, x);
    }
  }

  // ------------------------------------------------------------------------
  // The order is that of the template

  /** The ways part at some node: `a` leads to an earlier element there, or to an earlier
      repetition of the same one. */
  ghost predicate Parts(a: Loc, b: Loc) {
    a.At? && b.At? && a.up == b.up && (a.i < b.i || (a.i == b.i && a.j < b.j))
  }

  /** `x` is the instance `a` or below it. */
  ghost predicate In(a: Loc, x: Loc) { x == a || (x.At? && In(a, x.up)) }

  /** `x` comes before `y`. */
  ghost predicate Precedes(x: Loc, y: Loc) { exists a, b :: Parts(a, b) && In(a, x) && In(b, y) }

  ghost predicate Ascending(o: seq<Loc>) { forall p, q :: 0 <= p < q < |o| ==> Precedes(o[p], o[q]) }

  lemma AscendingJoin(a: seq<Loc>, b: seq<Loc>)
    requires Ascending(a) && Ascending(b)
    requires forall x, y :: x in a && y in b ==> Precedes(x, y)
    ensures Ascending(a + b)
  {
    hide Precedes;
    var o := a + b;
    forall p, q | 0 <= p < q < |o|
      ensures Precedes(o[p], o[q])
    {
      assert o[p] == if p < |a| then a[p] else b[p - |a|];
      assert o[q] == if q < |a| then a[q] else b[q - |a|];
    }
  }

  /** Everything in the order of the elements `i` and on lies below one of them. */
  lemma {:induction false} OrderIn(root: Node, m: Record, sel: Selection, node: Node, i: nat, loc: Loc, x: Loc) returns (k: nat, j: nat)
    requires i <= |node.elems| && Order(root, m, sel, node, i, loc).Some? && x in Order(root, m, sel, node, i, loc).value
    ensures k >= i && In(At(loc, k, j), x)
    decreases node, |node.elems| - i, 0
  {
    if x in OrderElem(root, m, sel, node.elems[i], i, loc).value {
      k := i;
      j := OrderElemIn(root, m, sel, node.elems[i], i, loc, x);
    } else {
      k, j := OrderIn(root, m, sel, node, i + 1, loc, x);
    }
  }

  lemma {:induction false} OrderElemIn(root: Node, m: Record, sel: Selection, e: Elem, i: nat, loc: Loc, x: Loc) returns (j: nat)
    requires OrderElem(root, m, sel, e, i, loc).Some? && x in OrderElem(root, m, sel, e, i, loc).value
    ensures In(At(loc, i, j), x)
    decreases e, 1, 0
  {
    if e.kind.IsSubset() {
      j := OrderRepeatsIn(root, m, sel, e, i, loc, 0, Repeats(root, m, e, At(loc, i, 0)).value, x);
    } else {
      j := 0;
    }
  }

  lemma {:induction false} OrderRepeatsIn(root: Node, m: Record, sel: Selection, e: Elem, i: nat, loc: Loc, j: nat, n: nat, x: Loc)
    returns (k: nat)
    requires OrderRepeats(root, m, sel, e, i, loc, j, n).Some? && x in OrderRepeats(root, m, sel, e, i, loc, j, n).value
    ensures k >= j && In(At(loc, i, k), x)
    decreases e, 0, n - j
  {
    if x in Order(root, m, sel, e.ref, 0, At(loc, i, j)).value {
      var a, b := OrderIn(root, m, sel, e.ref, 0, At(loc, i, j), x);
      InUp(At(At(loc, i, j), a, b), x);
      k := j;
    } else {
      k := OrderRepeatsIn(root, m, sel, e, i, loc, j + 1, n, x);
    }
  }

  lemma {:induction false} InUp(a: Loc, x: Loc)
    requires a.At? && In(a, x)
    ensures In(a.up, x)
  {
    if x != a { InUp(a, x.up); }
  }

  /** The leaves come in the order of the template: elements in turn, and repetitions in turn. */
  lemma {:induction false} OrderAscends(root: Node, m: Record, sel: Selection, node: Node, i: nat, loc: Loc)
    requires i <= |node.elems| && Order(root, m, sel, node, i, loc).Some?
    ensures Ascending(Order(root, m, sel, node, i, loc).value)
    decreases node, |node.elems| - i, 0
  {
    if i < |node.elems| {
      var a, b := OrderElem(root, m, sel, node.elems[i], i, loc).value, Order(root, m, sel, node, i + 1, loc).value;
      OrderElemAscends(root, m, sel, node.elems[i], i, loc);
      OrderAscends(root, m, sel, node, i + 1, loc);
      forall x, y | x in a && y in b
        ensures Precedes(x, y)
      {
        var j := OrderElemIn(root, m, sel, node.elems[i], i, loc, x);
        var k, j' := OrderIn(root, m, sel, node, i + 1, loc, y);
        assert Parts(At(loc, i, j), At(loc, k, j'));
      }
      AscendingJoin(a, b);
    }
  }

  lemma {:induction false} OrderElemAscends(root: Node, m: Record, sel: Selection, e: Elem, i: nat, loc: Loc)
    requires OrderElem(root, m, sel, e, i, loc).Some?
    ensures Ascending(OrderElem(root, m, sel, e, i, loc).value)
    decreases e, 1, 0
  {
    hide Precedes, OrderRepeats, Repeats;
    if e.kind.IsSubset() && !(sel.Sharing? && e.flag & sel.flag == 0) {
      hide Ascending;
      OrderRepeatsAscend(root, m, sel, e, i, loc, 0, Repeats(root, m, e, At(loc, i, 0)).value);
    }
  }

  lemma {:induction false} OrderRepeatsAscend(root: Node, m: Record, sel: Selection, e: Elem, i: nat, loc: Loc, j: nat, n: nat)
    requires OrderRepeats(root, m, sel, e, i, loc, j, n).Some?
    ensures Ascending(OrderRepeats(root, m, sel, e, i, loc, j, n).value)
    decreases e, 0, n - j
  {
    if j < n {
      var here := At(loc, i, j);
      var a, b := Order(root, m, sel, e.ref, 0, here).value, OrderRepeats(root, m, sel, e, i, loc, j + 1, n).value;
      OrderAscends(root, m, sel, e.ref, 0, here);
      OrderRepeatsAscend(root, m, sel, e, i, loc, j + 1, n);
      forall x, y | x in a && y in b
        ensures Precedes(x, y)
      {
        var p, q := OrderIn(root, m, sel, e.ref, 0, here, x);
        InUp(At(here, p, q), x);
        var k := OrderRepeatsIn(root, m, sel, e, i, loc, j + 1, n, y);
        assert Parts(here, At(loc, i, k));
      }
      AscendingJoin(a, b);
    }
  }
}
