/** Where the elements of a record lie in memory: the offsets and sizes that
    template creation assigns (`_create_template_*`), the address computation
    `_elem_get_addr`, and `struct_size`. */
module StructLayout {
  import opened Base
  import opened StructWalk

  const POINTER_SIZE: nat := 8

  // ------------------------------------------------------------------------
  // The layout as a recursion

  function LeafSize(kind: Kind): nat {
    match kind
    case Scalar(w) => w
    case Tpm16 => 2
    case Bytes(w) => w
    case _ => POINTER_SIZE
  }

  /** How often an element is stored in place. */
  function InPlace(kind: Kind): nat {
    match kind
    case SubStruct(count) => if count == 0 then 1 else count
    case _ => 1
  }

  /** The space of `n` repetitions, that is `size * n`. */
  function Space(size: nat, n: nat): nat {
    if n == 0 then 0 else Space(size, n - 1) + size
  }

  lemma {:induction false} SpaceIsProduct(size: nat, n: nat)
    ensures Space(size, n) == size * n
  {
    if n > 0 { SpaceIsProduct(size, n - 1); }
  }

  lemma {:induction false} SpaceMonotone(size: nat, j: nat, j': nat)
    requires j < j'
    ensures Space(size, j) + size <= Space(size, j')
    decreases j'
  {
    if j < j' - 1 { SpaceMonotone(size, j, j' - 1); }
  }

  /** The space an element takes among its siblings. */
  function Extent(e: Elem): nat
    decreases e, 0
  {
    if e.kind.SubStruct? then Space(OffsetOf(e.ref, |e.ref.elems|), InPlace(e.kind))
    else if e.kind.IsSubset() then POINTER_SIZE
    else LeafSize(e.kind)
  }

  /** The sum of the extents of the elements before `i`. */
  function OffsetOf(node: Node, i: nat): nat
    requires i <= |node.elems|
    decreases node, i
  {
    if i == 0 then 0 else OffsetOf(node, i - 1) + Extent(node.elems[i - 1])
  }

  function NodeSize(node: Node): nat { OffsetOf(node, |node.elems|) }

  /** The `size` field of an element: one repetition of it. */
  function SizeOf(e: Elem): nat {
    if e.kind.IsSubset() then NodeSize(e.ref) else LeafSize(e.kind)
  }

  /** Values lie in place, strings and lists behind a pointer of eight bytes; a structure
      is stored as often as it says, at least once, and an array behind a pointer. */
  lemma ExtentExact(e: Elem)
    ensures
      match e.kind
      case Scalar(w) => Extent(e) == w
      case Bytes(w) => Extent(e) == w
      case Tpm16 => Extent(e) == 2
      case SubStruct(count) => Extent(e) == NodeSize(e.ref) * (if count > 1 then count else 1)
      case _ => Extent(e) == 8
  {
    if e.kind.SubStruct? { SpaceIsProduct(NodeSize(e.ref), InPlace(e.kind)); }
  }

  lemma {:induction false} OffsetMonotone(node: Node, i: nat, k: nat)
    requires i <= k <= |node.elems|
    ensures OffsetOf(node, i) <= OffsetOf(node, k)
    ensures i < k ==> OffsetOf(node, i) + Extent(node.elems[i]) <= OffsetOf(node, k)
    decreases k
  {
    if i < k { OffsetMonotone(node, i, k - 1); }
  }

  // ------------------------------------------------------------------------
  // Template creation as a walk

  /** `curr_offset`, and the offsets and sizes given so far. */
  datatype Creating = Creating(curr: nat, offset: map<Path, nat>, size: map<Path, nat>)

  function CreateEnter(s: Creating, e: Elem, at: Loc): Result<(Creating, int)> {
    Ok((Creating(0, s.offset[PathOf(at) := s.curr], s.size), InPlace(e.kind)))
  }

  /** One pass over the node below is enough: the repetitions end here. */
  function CreateExit(s: Creating, e: Elem, at: Loc): Result<(Creating, bool)> {
    var p := PathOf(at);
    var off := Get(s.offset, p);
    Ok((Creating(if e.kind.IsArray() then off + POINTER_SIZE else off + Space(s.curr, InPlace(e.kind)),
                 s.offset, s.size[p := s.curr]),
        true))
  }

  function CreateLeaf(s: Creating, e: Elem, at: Loc): Result<Creating> {
    Ok(Creating(s.curr + LeafSize(e.kind), s.offset[PathOf(at) := s.curr], s.size[PathOf(at) := LeafSize(e.kind)]))
  }

  function CreateVisitor(): Visitor<Creating> {
    Visitor((e: Elem) => true,
            (s: Creating, e: Elem, at: Loc, def: Loc) => CreateEnter(s, e, at),
            (s: Creating, e: Elem, at: Loc, limit: int) => Ok(s),   // never called: exit ends the repetitions
            (s: Creating, e: Elem, at: Loc, limit: int) => CreateExit(s, e, at),
            (s: Creating, e: Elem, at: Loc, def: Loc) => CreateLeaf(s, e, at))
  }

  /** `q` is the element at `p` or below it. */
  ghost predicate AtOrBelow(p: Path, q: Path) { OnPath(p, q) }

  /** `q` is element `i` or a later one of the node at `p`, or below such an element. */
  ghost predicate From(p: Path, i: nat, q: Path) {
    q.Step? && ((q.up == p && q.i >= i) || From(p, i, q.up))
  }

  /** The fields of the element at `q` are those of the recursive layout. */
  ghost predicate LaidOut(root: Node, s: Creating, q: Path)
    requires ValidElem(root, q)
  {
    && q in s.offset && s.offset[q] == OffsetOf(NodeAt(root, q.up), q.i)
    && q in s.size && s.size[q] == SizeOf(NodeAt(root, q.up).elems[q.i])
  }

  ghost predicate SameAt(s: Creating, s': Creating, q: Path) {
    Get(s.offset, q) == Get(s'.offset, q) && (q in s.offset <==> q in s'.offset) &&
    Get(s.size, q) == Get(s'.size, q) && (q in s.size <==> q in s'.size)
  }

  lemma {:induction false} FromSplit(p: Path, i: nat, q: Path)
    ensures From(p, i, q) <==> AtOrBelow(Step(p, i), q) || From(p, i + 1, q)
    ensures From(p, i + 1, q) ==> !AtOrBelow(Step(p, i), q)
    ensures AtOrBelow(Step(p, i), q) <==> q == Step(p, i) || From(Step(p, i), 0, q)
    ensures From(p, i, q) ==> Depth(p) < Depth(q)
  {
    if q.Step? { FromSplit(p, i, q.up); }
    OnPathDepth(Step(p, i), q);
  }

  lemma {:induction false} CreateElems(root: Node, node: Node, i: nat, loc: Loc, s: Creating) returns (s': Creating)
    requires ValidNode(root, PathOf(loc)) && NodeAt(root, PathOf(loc)) == node && i <= |node.elems|
    requires s.curr == OffsetOf(node, i)
    ensures RunElems(CreateVisitor(), node, i, loc, s).Res() == Ok(s')
    ensures s'.curr == NodeSize(node)
    ensures forall q :: From(PathOf(loc), i, q) && ValidElem(root, q) ==> LaidOut(root, s', q)
    ensures forall q :: !From(PathOf(loc), i, q) ==> SameAt(s, s', q)
    decreases node, |node.elems| - i, 0
  {
    var p := PathOf(loc);
    if i == |node.elems| {
      s' := s;
      forall q | From(p, i, q) && ValidElem(root, q) ensures false { NoneBeyond(root, p, q); }
    } else {
      var s1 := CreateElem(root, node, i, loc, s);
      s' := CreateElems(root, node, i + 1, loc, s1);
      forall q | From(p, i, q) && ValidElem(root, q) ensures LaidOut(root, s', q) {
        FromSplit(p, i, q);
        assert AtOrBelow(Step(p, i), q) ==> SameAt(s1, s', q);
      }
      forall q | !From(p, i, q) ensures SameAt(s, s', q) {
        FromSplit(p, i, q);
        assert SameAt(s, s1, q) && SameAt(s1, s', q);
      }
    }
  }

  lemma {:induction false} NoneBeyond(root: Node, p: Path, q: Path)
    requires ValidNode(root, p) && ValidElem(root, q)
    ensures !From(p, |NodeAt(root, p).elems|, q)
  {
    if q.up == p {
      FromSplit(p, |NodeAt(root, p).elems|, p);
    } else if q.up.Step? {
      NoneBeyond(root, p, q.up);
    }
  }

  lemma {:induction false} CreateElem(root: Node, node: Node, i: nat, loc: Loc, s: Creating) returns (s': Creating)
    requires ValidNode(root, PathOf(loc)) && NodeAt(root, PathOf(loc)) == node && i < |node.elems|
    requires s.curr == OffsetOf(node, i)
    ensures RunElem(CreateVisitor(), node.elems[i], loc, i, s).Res() == Ok(s')
    ensures s'.curr == OffsetOf(node, i + 1)
    ensures forall q :: AtOrBelow(Step(PathOf(loc), i), q) && ValidElem(root, q) ==> LaidOut(root, s', q)
    ensures forall q :: !AtOrBelow(Step(PathOf(loc), i), q) ==> SameAt(s, s', q)
    decreases node.elems[i], 1, 0
  {
    var e := node.elems[i];
    var p := Step(PathOf(loc), i);
    var here := At(loc, i, 0);
    assert PathOf(here) == p;
    if e.kind.IsSubset() {
      var s0 := CreateEnter(s, e, here).value.0;
      var s1 := CreateElems(root, e.ref, 0, here, s0);
      s' := CreateSubset(root, node, i, loc, s, s0, s1);
    } else {
      s' := CreateLeaf(s, e, here).value;
      forall q | AtOrBelow(p, q) && ValidElem(root, q) ensures LaidOut(root, s', q) {
        if q != p { NotBelowLeaf(root, p, q); }
      }
    }
  }

  /** Leaving a subset element, once the node below is laid out. */
  lemma CreateSubset(root: Node, node: Node, i: nat, loc: Loc, s: Creating, s0: Creating, s1: Creating) returns (s': Creating)
    requires ValidNode(root, PathOf(loc)) && NodeAt(root, PathOf(loc)) == node && i < |node.elems|
    requires s.curr == OffsetOf(node, i)
    requires
      var e := node.elems[i];
      var p := Step(PathOf(loc), i);
      && e.kind.IsSubset()
      && CreateEnter(s, e, At(loc, i, 0)) == Ok((s0, InPlace(e.kind)))
      && RunElems(CreateVisitor(), e.ref, 0, At(loc, i, 0), s0).Res() == Ok(s1)
      && s1.curr == NodeSize(e.ref)
      && (forall q :: From(p, 0, q) && ValidElem(root, q) ==> LaidOut(root, s1, q))
      && (forall q :: !From(p, 0, q) ==> SameAt(s0, s1, q))
    ensures RunElem(CreateVisitor(), node.elems[i], loc, i, s).Res() == Ok(s')
    ensures s'.curr == OffsetOf(node, i + 1)
    ensures forall q :: AtOrBelow(Step(PathOf(loc), i), q) && ValidElem(root, q) ==> LaidOut(root, s', q)
    ensures forall q :: !AtOrBelow(Step(PathOf(loc), i), q) ==> SameAt(s, s', q)
  {
    var e := node.elems[i];
    var p := Step(PathOf(loc), i);
    var v := CreateVisitor();
    assert PathOf(At(loc, i, 1)) == p && PathOf(At(loc, i, 0)) == p;
    FromSplit(p, 0, p);
    assert SameAt(s0, s1, p);
    s' := CreateExit(s1, e, At(loc, i, 1)).value.0;
    assert AfterBody(v, e, loc, i, 0, InPlace(e.kind), s1) == Done(s', 1);
    assert RunRepeat(v, e, loc, i, 0, InPlace(e.kind), s0).Res() == Ok(s');
    forall q | AtOrBelow(p, q) && ValidElem(root, q) ensures LaidOut(root, s', q) {
      FromSplit(PathOf(loc), i, q);
      assert q != p ==> LaidOut(root, s1, q);
    }
    forall q | !AtOrBelow(p, q) ensures SameAt(s, s', q) {
      FromSplit(PathOf(loc), i, q);
      assert SameAt(s0, s1, q);
    }
  }

  lemma {:induction false} NotBelowLeaf(root: Node, p: Path, q: Path)
    requires ValidElem(root, p) && !NodeAt(root, p.up).elems[p.i].kind.IsSubset()
    requires ValidElem(root, q) && q != p
    ensures !OnPath(p, q)
  {
    if q.up.Step? {
      if q.up != p { NotBelowLeaf(root, p, q.up); }
    }
  }

  lemma {:induction false} AllFromRoot(q: Path)
    requires q.Step?
    ensures From(Root, 0, q)
  {
    if q.up.Step? { AllFromRoot(q.up); }
  }

  /** `create_struct_template`: the new template is at rest, and every element has
      the offset and size of the recursive layout. */
  method CreateTemplate(root: Node) returns (t: Template, c: Creating)
    ensures fresh(t) && t.root == root && t.AtRest()
    ensures c.curr == NodeSize(root)
    ensures forall q :: ValidElem(root, q) ==> LaidOut(root, c, q)
  {
    t := new Template(root);
    var start := Creating(0, map[], map[]);
    ghost var s' := CreateElems(root, root, 0, Top, start);
    var r := t.Convert(CreateVisitor(), start);
    c := r.value;
    forall q | ValidElem(root, q) ensures LaidOut(root, c, q) { AllFromRoot(q); }
  }

  /** `struct_size`: computed from the last element of the root node. */
  function StructSize(root: Node, c: Creating): nat
    requires root.elems != []
  {
    var n := |root.elems| - 1;
    var last := Step(Root, n);
    if root.elems[n].kind.SubStruct?
    then Get(c.offset, last) + Space(Get(c.size, last), InPlace(root.elems[n].kind))
    else Get(c.offset, last) + Get(c.size, last)
  }

  /** It is the end of the record unless the last element is an array of
      structures: then the size of one structure is counted for a pointer. */
  lemma StructSizeExact(root: Node, c: Creating)
    requires root.elems != [] && ValidElem(root, Step(Root, |root.elems| - 1))
    requires LaidOut(root, c, Step(Root, |root.elems| - 1))
    ensures
      var e := root.elems[|root.elems| - 1];
      StructSize(root, c) == NodeSize(root) <==>
      (e.kind.IsArray() && e.kind.IsSubset() ==> NodeSize(e.ref) == POINTER_SIZE)
  {
    assert NodeSize(root) == OffsetOf(root, |root.elems| - 1) + Extent(root.elems[|root.elems| - 1]);
  }

  /** A record that is one array of one 4 byte structure: four bytes are reported, and the
      pointer takes eight. */
  lemma StructSizeExample(c: Creating)
    requires LaidOut(Node([Elem(FixArray(1), 0, Root, Node([Elem(Scalar(4), 0, Root, Node([]))]))]), c, Step(Root, 0))
    ensures
      var root := Node([Elem(FixArray(1), 0, Root, Node([Elem(Scalar(4), 0, Root, Node([]))]))]);
      StructSize(root, c) == 4 && NodeSize(root) == 8
  {
    var leaf := Elem(Scalar(4), 0, Root, Node([]));
    var inner := Node([leaf]);
    var e := Elem(FixArray(1), 0, Root, inner);
    var root := Node([e]);
    assert OffsetOf(inner, 0) == 0 && OffsetOf(inner, 1) == Extent(leaf) == 4;
    assert OffsetOf(root, 0) == 0 && OffsetOf(root, 1) == Extent(e) == 8;
  }

  // ------------------------------------------------------------------------
  // Addresses

  /** A memory block is the record itself or what the pointer in a cell points to. */
  datatype Block = Base | Behind(cell: Place)

  datatype Place = Place(block: Block, off: nat)
  {
    function Plus(n: nat): Place { Place(block, off + n) }
  }

  /** Every step of the instance is an element of its node, and elements stored in
      place have a repetition that exists. */
  predicate ValidLoc(root: Node, loc: Loc) {
    loc.Top? ||
    (&& ValidLoc(root, loc.up) && ValidNode(root, PathOf(loc.up))
     && loc.i < |NodeAt(root, PathOf(loc.up)).elems|
     && var e := NodeAt(root, PathOf(loc.up)).elems[loc.i];
     && (e.kind.SubStruct? ==> loc.j < InPlace(e.kind))
     && (!e.kind.IsSubset() ==> loc.j == 0))
  }

  function ElemOf(root: Node, loc: Loc): Elem
    requires loc.At? && ValidNode(root, PathOf(loc.up)) && loc.i < |NodeAt(root, PathOf(loc.up)).elems|
  {
    NodeAt(root, PathOf(loc.up)).elems[loc.i]
  }

  /** Where an instance lies, computed from the top down: a structure stored in
      place after its elder siblings, an array element in the block behind the
      array's pointer, a leaf at its offset in its node. */
  function AddrOf(root: Node, loc: Loc): Place
    requires ValidLoc(root, loc)
  {
    if loc.Top? then Place(Base, 0)
    else
      var e := ElemOf(root, loc);
      var field := AddrOf(root, loc.up).Plus(OffsetOf(NodeAt(root, PathOf(loc.up)), loc.i));
      if e.kind.SubStruct? then field.Plus(Space(NodeSize(e.ref), loc.j))
      else if e.kind.IsSubset() then Place(Behind(field), Space(NodeSize(e.ref), loc.j))
      else field
  }

  /** Follow the pointers: the last offset is the first to be applied. */
  function Chase(at: Place, offs: seq<nat>): Place
    requires offs != []
    decreases |offs|
  {
    var n := |offs| - 1;
    if n == 0 then at.Plus(offs[0])
    else Chase(Place(Behind(at.Plus(offs[n])), 0), offs[..n])
  }

  lemma {:induction false} ChaseShift(at: Place, offs: seq<nat>, d: nat)
    requires offs != []
    ensures Chase(at, offs[|offs| - 1 := offs[|offs| - 1] + d]) == Chase(at.Plus(d), offs)
  {
    var n := |offs| - 1;
    var more := offs[n := offs[n] + d];
    assert at.Plus(more[n]) == at.Plus(d).Plus(offs[n]);
    if n > 0 {
      assert more[..n] == offs[..n];
      hide Chase;
      ChaseDown(at, more);
      ChaseDown(at.Plus(d), offs);
    }
  }

  lemma ChaseArray(at: Place, offs: seq<nat>, off: nat, d: nat)
    requires offs != []
    ensures Chase(at, offs[|offs| - 1 := offs[|offs| - 1] + d] + [off]) == Chase(Place(Behind(at.Plus(off)), d), offs)
  {
    var inner := offs[|offs| - 1 := offs[|offs| - 1] + d];
    assert (inner + [off])[..|offs|] == inner;
    ChaseShift(Place(Behind(at.Plus(off)), 0), offs, d);
  }

  /** One step of the address computation: from an instance to the one above. */
  lemma ChaseStep(root: Node, loc: Loc, offs: seq<nat>, off: nat, d: nat)
    requires ValidLoc(root, loc) && loc.At? && offs != []
    requires off == OffsetOf(NodeAt(root, PathOf(loc.up)), loc.i)
    requires d == if ElemOf(root, loc).kind.IsSubset() then Space(NodeSize(ElemOf(root, loc).ref), loc.j) else 0
    ensures
      var kind := ElemOf(root, loc).kind;
      var n := |offs| - 1;
      Chase(AddrOf(root, loc), offs) ==
      Chase(AddrOf(root, loc.up),
            if kind.IsSubset() && kind.IsArray() then offs[n := offs[n] + d] + [off]
            else offs[n := offs[n] + (off + d)])
  {
    var base := AddrOf(root, loc.up);
    var kind := ElemOf(root, loc).kind;
    if kind.IsSubset() && kind.IsArray() {
      ChaseArray(base, offs, off, d);
    } else {
      ChaseShift(base, offs, off + d);
      assert base.Plus(off + d) == base.Plus(off).Plus(d);
    }
  }

  /** The same step in terms of the fields of the template. */
  lemma CollectStep(root: Node, c: Creating, index: map<Path, nat>, p: Path, offs: seq<nat>, d: nat)
    requires ValidElem(root, p) && LaidOut(root, c, p) && ValidLoc(root, Instance(index, p)) && offs != []
    requires d == if NodeAt(root, p.up).elems[p.i].kind.IsSubset() then Space(c.size[p], Get(index, p)) else 0
    ensures
      var kind := NodeAt(root, p.up).elems[p.i].kind;
      var n := |offs| - 1;
      Chase(AddrOf(root, Instance(index, p)), offs) ==
      Chase(AddrOf(root, Instance(index, p.up)),
            if kind.IsSubset() && kind.IsArray() then offs[n := offs[n] + d] + [c.offset[p]]
            else offs[n := offs[n] + (c.offset[p] + d)])
  {
    hide Chase, AddrOf, OffsetOf, Space;
    PathOfInstance(index, p.up);
    ChaseStep(root, Instance(index, p), offs, c.offset[p], d);
  }

  lemma LaidOutHere(root: Node, c: Creating, p: Path)
    requires ValidElem(root, p) && LaidOut(root, c, p)
    ensures p in c.offset && p in c.size
  {
  }

  lemma StartChase(root: Node, loc: Loc)
    requires ValidLoc(root, loc)
    ensures Chase(AddrOf(root, loc), [0]) == AddrOf(root, loc)
    ensures AddrOf(root, Top) == Place(Base, 0)
  {
  }

  /** Only the elements of arrays lie behind a further pointer. */
  lemma DepthStep(root: Node, loc: Loc)
    requires ValidLoc(root, loc) && loc.At?
    ensures ValidLoc(root, loc.up)
    ensures
      var kind := ElemOf(root, loc).kind;
      BlockDepth(AddrOf(root, loc).block) ==
      BlockDepth(AddrOf(root, loc.up).block) + (if kind.IsSubset() && kind.IsArray() then 1 else 0)
  {
  }

  lemma InstanceElem(root: Node, index: map<Path, nat>, p: Path)
    requires ValidElem(root, p) && ValidLoc(root, Instance(index, p))
    ensures ElemOf(root, Instance(index, p)) == NodeAt(root, p.up).elems[p.i]
  {
    PathOfInstance(index, p.up);
  }

  lemma UpInstance(root: Node, index: map<Path, nat>, p: Path)
    requires p.Step? && ValidLoc(root, Instance(index, p))
    ensures ValidLoc(root, Instance(index, p.up))
  {
  }

  /** The first loop of `_elem_get_addr`: from the element up to the root, one sum
      of offsets for every pointer on the way. */
  method CollectOffsets(root: Node, c: Creating, index: map<Path, nat>, elem: Path) returns (offs: seq<nat>)
    requires ValidElem(root, elem) && ValidLoc(root, Instance(index, elem))
    requires forall q :: ValidElem(root, q) ==> LaidOut(root, c, q)
    ensures offs != [] && Chase(Place(Base, 0), offs) == AddrOf(root, Instance(index, elem))
    ensures |offs| == 1 + BlockDepth(AddrOf(root, Instance(index, elem)).block)
  {
    hide Chase, AddrOf, ValidLoc, LaidOut;
    StartChase(root, Instance(index, elem));
    offs := [0];
    var p := elem;
    while p != Root
      invariant p.Root? || ValidElem(root, p)
      invariant ValidLoc(root, Instance(index, p)) && offs != []
      invariant Chase(AddrOf(root, Instance(index, p)), offs) == AddrOf(root, Instance(index, elem))
      invariant |offs| + BlockDepth(AddrOf(root, Instance(index, p)).block) == 1 + BlockDepth(AddrOf(root, Instance(index, elem)).block)
      decreases p
    {
      assert LaidOut(root, c, p);
      LaidOutHere(root, c, p);
      UpInstance(root, index, p);
      var n := |offs| - 1;
      var kind := NodeAt(root, p.up).elems[p.i].kind;
      var d := if kind.IsSubset() then Space(c.size[p], Get(index, p)) else 0;
      CollectStep(root, c, index, p, offs, d);
      DepthStep(root, Instance(index, p));
      InstanceElem(root, index, p);
      if kind.IsSubset() && kind.IsArray() {
        offs := offs[n := offs[n] + d];
        offs := offs + [c.offset[p]];
      } else {
        offs := offs[n := offs[n] + (c.offset[p] + d)];
      }
      p := p.up;
    }
  }

  /** The pointer cells on the way to a place. */
  ghost function Cells(a: Place): set<Place> {
    if a.block.Base? then {} else {a.block.cell} + Cells(a.block.cell)
  }

  lemma {:induction false} CellsOnWay(at: Place, offs: seq<nat>)
    requires offs != []
    ensures Cells(at) <= Cells(Chase(at, offs))
    ensures |offs| == 1 ==> Cells(Chase(at, offs)) == Cells(at)
    ensures |offs| > 1 ==> at.Plus(offs[|offs| - 1]) in Cells(Chase(at, offs))
    decreases |offs|
  {
    if |offs| > 1 {
      CellsOnWay(Place(Behind(at.Plus(offs[|offs| - 1])), 0), offs[..|offs| - 1]);
    }
  }

  /** `_elem_get_addr`: collect the offsets, then follow the pointers from the record down to
      the element; there is no address behind a pointer that is not set. */
  method ElemGetAddr(root: Node, c: Creating, index: map<Path, nat>, elem: Path, unset: set<Place>) returns (addr: Option<Place>)
    requires ValidElem(root, elem) && ValidLoc(root, Instance(index, elem))
    requires forall q :: ValidElem(root, q) ==> LaidOut(root, c, q)
    ensures addr ==
            var a := AddrOf(root, Instance(index, elem)); if Cells(a) !! unset then Some(a) else None
  {
    hide AddrOf, ValidLoc, LaidOut, Chase, Cells;
    var offs := CollectOffsets(root, c, index, elem);
    ghost var target := AddrOf(root, Instance(index, elem));
    var at := Place(Base, 0);
    var i := |offs| - 1;
    assert offs[..i + 1] == offs;
    NoCells();
    while i > 0
      invariant 0 <= i < |offs| && Cells(at) !! unset
      invariant Chase(at, offs[..i + 1]) == target
    {
      assert offs[..i + 1][..i] == offs[..i];
      CellsOnWay(at, offs[..i + 1]);
      ChaseDown(at, offs[..i + 1]);
      var cell := at.Plus(offs[i]);
      if cell in unset { return None; }
      at := Place(Behind(cell), 0);
      i := i - 1;
    }
    CellsOnWay(at, offs[..1]);
    ChaseEnd(at, offs[..1]);
    addr := Some(at.Plus(offs[0]));
  }

  lemma NoCells()
    ensures Cells(Place(Base, 0)) == {}
  {
  }

  lemma ChaseDown(at: Place, offs: seq<nat>)
    requires |offs| > 1
    ensures var n := |offs| - 1;
      var cell := at.Plus(offs[n]);
      Chase(at, offs) == Chase(Place(Behind(cell), 0), offs[..n]) && Cells(Place(Behind(cell), 0)) == {cell} + Cells(at)
  {
  }

  lemma ChaseEnd(at: Place, offs: seq<nat>)
    requires |offs| == 1
    ensures Chase(at, offs) == at.Plus(offs[0])
  {
  }

  // ------------------------------------------------------------------------
  // Different leaves never overlap

  /** `size` bytes at `a` lie between `lo` and `hi` of block `b`, or behind pointers
      whose first cell does. */
  ghost predicate Anchored(a: Place, size: nat, b: Block, lo: nat, hi: nat)
    decreases a
  {
    (a.block == b && lo <= a.off && a.off + size <= hi) ||
    (a.block.Behind? && Anchored(a.block.cell, POINTER_SIZE, b, lo, hi))
  }

  ghost predicate Apart(a: Place, size: nat, a': Place, size': nat) {
    a.block != a'.block || a.off + size <= a'.off || a'.off + size' <= a.off
  }

  ghost function BlockDepth(b: Block): nat { if b.Base? then 0 else BlockDepth(b.cell.block) + 1 }

  lemma {:induction false} AnchoredDepth(a: Place, size: nat, b: Block, lo: nat, hi: nat)
    requires Anchored(a, size, b, lo, hi)
    ensures BlockDepth(b) <= BlockDepth(a.block)
    decreases a
  {
    if a.block != b { AnchoredDepth(a.block.cell, POINTER_SIZE, b, lo, hi); }
  }

  /** What is anchored in two separate ranges of one block does not overlap. */
  lemma {:induction false} AnchoredApart(a: Place, size: nat, a': Place, size': nat,
                                         b: Block, lo: nat, hi: nat, lo': nat, hi': nat)
    requires Anchored(a, size, b, lo, hi) && Anchored(a', size', b, lo', hi') && (hi <= lo' || hi' <= lo)
    ensures Apart(a, size, a', size')
    ensures size > 0 && size' > 0 ==> a != a'
    decreases a
  {
    if a.block == a'.block {
      if a.block == b {
        if !(lo <= a.off && a.off + size <= hi) { AnchoredDepth(a.block.cell, POINTER_SIZE, b, lo, hi); }
        if !(lo' <= a'.off && a'.off + size' <= hi') { AnchoredDepth(a'.block.cell, POINTER_SIZE, b, lo', hi'); }
      } else {
        AnchoredApart(a.block.cell, POINTER_SIZE, a'.block.cell, POINTER_SIZE, b, lo, hi, lo', hi');
        assert false;
      }
    }
  }

  lemma Wider(a: Place, size: nat, b: Block, lo: nat, hi: nat, lo': nat, hi': nat)
    requires Anchored(a, size, b, lo, hi) && lo' <= lo && hi <= hi'
    ensures Anchored(a, size, b, lo', hi')
    decreases a
  {
    if a.block.Behind? && Anchored(a.block.cell, POINTER_SIZE, b, lo, hi) {
      Wider(a.block.cell, POINTER_SIZE, b, lo, hi, lo', hi');
    }
  }

  /** The bytes an instance takes: a leaf its size, a node instance its node's size. */
  ghost function Width(root: Node, loc: Loc): nat
    requires loc.At? && ValidLoc(root, loc)
  {
    SizeOf(ElemOf(root, loc))
  }

  /** The block and the start of the repetitions of element `i` of the node at `up`. */
  ghost function Home(root: Node, up: Loc, i: nat): Place
    requires ValidLoc(root, At(up, i, 0))
  {
    AddrOf(root, At(up, i, 0))
  }

  /** An instance lies within its own repetition, which lies in its home block. */
  lemma InRepetition(root: Node, loc: Loc)
    requires loc.At? && ValidLoc(root, loc)
    ensures ValidLoc(root, At(loc.up, loc.i, 0))
    ensures
      var home := Home(root, loc.up, loc.i);
      AddrOf(root, loc) == home.Plus(Space(Width(root, loc), loc.j))
  {
    var e := ElemOf(root, loc);
    if !e.kind.IsSubset() { assert Space(Width(root, loc), loc.j) == 0; }
  }

  /** All of an instance lies in the field of its element in the node above, or
      behind the pointer there. */
  lemma InField(root: Node, loc: Loc)
    requires loc.At? && ValidLoc(root, loc)
    ensures
      var up := AddrOf(root, loc.up);
      var off := up.off + OffsetOf(NodeAt(root, PathOf(loc.up)), loc.i);
      Anchored(AddrOf(root, loc), Width(root, loc), up.block, off, off + Extent(ElemOf(root, loc)))
  {
    var e := ElemOf(root, loc);
    var up := AddrOf(root, loc.up);
    var field := up.Plus(OffsetOf(NodeAt(root, PathOf(loc.up)), loc.i));
    if e.kind.SubStruct? {
      var size := NodeSize(e.ref);
      SpaceMonotone(size, loc.j, InPlace(e.kind));
    } else if e.kind.IsSubset() {
      assert Anchored(field, POINTER_SIZE, up.block, field.off, field.off + POINTER_SIZE);
    }
  }

  /** What is below a node instance lies within it, or behind its pointers. */
  lemma {:induction false} InNode(root: Node, loc: Loc, top: Loc)
    requires loc.At? && ValidLoc(root, loc) && Above(top, loc)
    requires ValidLoc(root, top) && ValidNode(root, PathOf(top))
    ensures
      var a := AddrOf(root, top);
      Anchored(AddrOf(root, loc), Width(root, loc), a.block, a.off, a.off + NodeSize(NodeAt(root, PathOf(top))))
    decreases loc
  {
    var a := AddrOf(root, top);
    var node := NodeAt(root, PathOf(loc.up));
    FieldInNode(root, loc);
    hide Anchored, AddrOf, OffsetOf, Extent, Width;
    if loc.up != top {
      var up := AddrOf(root, loc.up);
      UpWidth(root, loc);
      InNode(root, loc.up, top);
      Nested(AddrOf(root, loc), Width(root, loc), up, NodeSize(node), a.block, a.off, a.off + NodeSize(NodeAt(root, PathOf(top))));
    }
  }

  /** An instance lies in the node that it is an element of. */
  lemma FieldInNode(root: Node, loc: Loc)
    requires loc.At? && ValidLoc(root, loc)
    ensures
      var up := AddrOf(root, loc.up);
      Anchored(AddrOf(root, loc), Width(root, loc), up.block, up.off, up.off + NodeSize(NodeAt(root, PathOf(loc.up))))
  {
    hide Anchored, AddrOf, Width;
    var node := NodeAt(root, PathOf(loc.up));
    InField(root, loc);
    OffsetMonotone(node, loc.i, |node.elems|);
    var up := AddrOf(root, loc.up);
    var off := up.off + OffsetOf(node, loc.i);
    Wider(AddrOf(root, loc), Width(root, loc), up.block, off, off + Extent(ElemOf(root, loc)), up.off, up.off + NodeSize(node));
  }

  /** A node instance is as wide as its node. */
  lemma UpWidth(root: Node, loc: Loc)
    requires loc.At? && loc.up.At? && ValidLoc(root, loc)
    ensures ValidLoc(root, loc.up) && Width(root, loc.up) == NodeSize(NodeAt(root, PathOf(loc.up)))
  {
  }

  /** `top` is strictly above `loc`. */
  ghost predicate Above(top: Loc, loc: Loc) {
    loc.At? && (loc.up == top || Above(top, loc.up))
  }

  lemma {:induction false} Nested(a: Place, size: nat, mid: Place, width: nat, b: Block, lo: nat, hi: nat)
    requires Anchored(a, size, mid.block, mid.off, mid.off + width)
    requires Anchored(mid, width, b, lo, hi)
    ensures Anchored(a, size, b, lo, hi)
    decreases a
  {
    if a.block == mid.block && mid.off <= a.off && a.off + size <= mid.off + width {
    } else {
      Nested(a.block.cell, POINTER_SIZE, mid, width, b, lo, hi);
    }
  }

  /** Where two instances part: at the same node they go to different elements or
      different repetitions. */
  ghost predicate PartAt(top: Loc, x: Loc, y: Loc) {
    x.At? && y.At? && x.up == top && y.up == top && x != y
  }

  /** `l` is the instance `x` or below it. */
  ghost predicate Inside(root: Node, x: Loc, l: Loc) {
    && x.At? && l.At? && ValidLoc(root, x) && ValidLoc(root, l)
    && (l == x || (Above(x, l) && ValidNode(root, PathOf(x))))
  }

  /** What is inside an instance lies in the field of its element, or behind it. */
  lemma InsideField(root: Node, x: Loc, l: Loc, base: Place, lo: nat)
    requires Inside(root, x, l) && base == AddrOf(root, x.up)
    requires lo == base.off + OffsetOf(NodeAt(root, PathOf(x.up)), x.i)
    ensures Anchored(AddrOf(root, l), Width(root, l), base.block, lo, lo + Extent(ElemOf(root, x)))
  {
    hide Anchored, AddrOf, OffsetOf, Extent, Width, Above;
    Within(root, x, l);
    InField(root, x);
    Nested(AddrOf(root, l), Width(root, l), AddrOf(root, x), Width(root, x), base.block, lo, lo + Extent(ElemOf(root, x)));
  }

  lemma PartedFields(root: Node, top: Loc, x: Loc, y: Loc, l: Loc, l': Loc)
    requires PartAt(top, x, y) && x.i < y.i && Inside(root, x, l) && Inside(root, y, l')
    ensures Apart(AddrOf(root, l), Width(root, l), AddrOf(root, l'), Width(root, l'))
  {
    hide Anchored, AddrOf, Width, Apart, Above;
    var node := NodeAt(root, PathOf(top));
    var base := AddrOf(root, top);
    var lo, lo' := base.off + OffsetOf(node, x.i), base.off + OffsetOf(node, y.i);
    InsideField(root, x, l, base, lo);
    InsideField(root, y, l', base, lo');
    OffsetMonotone(node, x.i, y.i);
    AnchoredApart(AddrOf(root, l), Width(root, l), AddrOf(root, l'), Width(root, l'), base.block,
                  lo, lo + Extent(node.elems[x.i]), lo', lo' + Extent(node.elems[y.i]));
  }

  lemma SameWidth(root: Node, x: Loc, y: Loc)
    requires x.At? && y.At? && x.up == y.up && x.i == y.i && ValidLoc(root, x) && ValidLoc(root, y)
    ensures Width(root, x) == Width(root, y)
  {
  }

  lemma PartedRepetitions(root: Node, top: Loc, x: Loc, y: Loc, l: Loc, l': Loc)
    requires PartAt(top, x, y) && x.i == y.i && x.j < y.j && Inside(root, x, l) && Inside(root, y, l')
    ensures Apart(AddrOf(root, l), Width(root, l), AddrOf(root, l'), Width(root, l'))
  {
    hide Anchored, AddrOf, Width, Apart, Above;
    Within(root, x, l);
    Within(root, y, l');
    InRepetition(root, x);
    InRepetition(root, y);
    SameWidth(root, x, y);
    var size := Width(root, x);
    SpaceMonotone(size, x.j, y.j);
    var a, a' := AddrOf(root, x), AddrOf(root, y);
    AnchoredApart(AddrOf(root, l), Width(root, l), AddrOf(root, l'), Width(root, l'),
                  a.block, a.off, a.off + size, a'.off, a'.off + size);
  }

  /** Two instances that part under the node `top` lie apart, and so does all that
      is below them. */
  lemma PartedApart(root: Node, top: Loc, x: Loc, y: Loc, l: Loc, l': Loc)
    requires PartAt(top, x, y) && Inside(root, x, l) && Inside(root, y, l')
    ensures Apart(AddrOf(root, l), Width(root, l), AddrOf(root, l'), Width(root, l'))
  {
    if x.i < y.i {
      PartedFields(root, top, x, y, l, l');
    } else if y.i < x.i {
      PartedFields(root, top, y, x, l', l);
    } else if x.j < y.j {
      PartedRepetitions(root, top, x, y, l, l');
    } else {
      PartedRepetitions(root, top, y, x, l', l);
    }
  }

  lemma Within(root: Node, x: Loc, l: Loc)
    requires Inside(root, x, l)
    ensures
      var a := AddrOf(root, x);
      Anchored(AddrOf(root, l), Width(root, l), a.block, a.off, a.off + Width(root, x))
  {
    if l == x {
      WithinItself(AddrOf(root, x), Width(root, x));
    } else {
      BelowWidth(root, x);
      hide Anchored, AddrOf, Width, NodeSize, NodeAt, ElemOf;
      InNode(root, l, x);
    }
  }

  lemma WithinItself(a: Place, size: nat)
    ensures Anchored(a, size, a.block, a.off, a.off + size)
  {
  }

  lemma BelowWidth(root: Node, x: Loc)
    requires x.At? && ValidLoc(root, x) && ValidNode(root, PathOf(x))
    ensures Width(root, x) == NodeSize(NodeAt(root, PathOf(x)))
  {
  }

  /** Two instances neither of which is below the other part somewhere. */
  lemma {:induction false} PartSomewhere(l: Loc, l': Loc) returns (top: Loc, x: Loc, y: Loc)
    requires l != l' && !Above(l, l') && !Above(l', l)
    ensures PartAt(top, x, y)
    ensures (l == x || Above(x, l)) && (l' == y || Above(y, l'))
    decreases l, l'
  {
    assert l.At? && l'.At? by {
      if l.Top? { TopAbove(l'); }
      if l'.Top? { TopAbove(l); }
    }
    if l.up == l'.up {
      top, x, y := l.up, l, l';
    } else if Above(l.up, l'.up) {
      AboveDeeper(l.up, l'.up);
      if Above(l'.up, l) { AboveDeeper(l'.up, l); }
      top, x, y := PartSomewhere(l, l'.up);
      AboveTrans(y, l'.up, l');
    } else {
      AboveUp(l, l');
      top, x, y := PartSomewhere(l.up, l');
      AboveTrans(x, l.up, l);
    }
  }

  lemma {:induction false} AboveDeeper(x: Loc, l: Loc)
    requires Above(x, l)
    ensures LocDepth(x) < LocDepth(l)
  {
    if l.up != x { AboveDeeper(x, l.up); }
  }

  lemma {:induction false} TopAbove(l: Loc)
    requires l.At?
    ensures Above(Top, l)
  {
    if l.up.At? { TopAbove(l.up); }
  }

  lemma {:induction false} AboveTrans(x: Loc, y: Loc, z: Loc)
    requires x == y || Above(x, y)
    requires Above(y, z)
    ensures Above(x, z)
    decreases z
  {
    if z.up != y { AboveTrans(x, y, z.up); }
  }

  lemma AboveUp(l: Loc, l': Loc)
    requires l.At? && l'.At? && l.up != l'.up && !Above(l.up, l'.up) && !Above(l, l') && !Above(l', l)
    ensures l.up != l' && !Above(l.up, l') && !Above(l', l.up)
  {
  }

  lemma {:induction false} ValidUp(root: Node, x: Loc, l: Loc)
    requires ValidLoc(root, l) && Above(x, l)
    ensures ValidLoc(root, x) && ValidNode(root, PathOf(x))
    decreases l
  {
    if l.up != x { ValidUp(root, x, l.up); }
  }

  /** Two different leaf instances of a record never overlap in memory. */
  lemma LeavesApart(root: Node, l: Loc, l': Loc)
    requires ValidLoc(root, l) && ValidLoc(root, l') && l.At? && l'.At? && l != l'
    requires !ElemOf(root, l).kind.IsSubset() && !ElemOf(root, l').kind.IsSubset()
    ensures Apart(AddrOf(root, l), LeafSize(ElemOf(root, l).kind), AddrOf(root, l'), LeafSize(ElemOf(root, l').kind))
  {
    if Above(l, l') { ValidUp(root, l, l'); }
    if Above(l', l) { ValidUp(root, l', l); }
    var top, x, y := PartSomewhere(l, l');
    if l != x { ValidUp(root, x, l); }
    if l' != y { ValidUp(root, y, l'); }
    PartedApart(root, top, x, y, l, l');
  }
}
