/** Records in memory: packing reads the leaves at the addresses that the template gives them,
    and unpacking writes them there. */
module StructMemory {
  import opened Base
  import opened StructWalk
  import opened StructRecord
  import opened StructCodec
  import opened StructLayout

  /** One addressable byte: a byte of a value stored in place, or a byte of a pointer to a
      value stored elsewhere. */
  datatype Unit = Octet(b: byte) | Link(v: Value)

  type Memory = map<Place, Unit>

  predicate Stored(kind: Kind) { kind.Scalar? || kind.Tpm16? || kind.Bytes? }

  /** The value has the size of its place. */
  predicate Fits(kind: Kind, v: Value) { Stored(kind) ==> v.Raw? && |v.data| == LeafSize(kind) }

  function Octets(d: seq<byte>): (us: seq<Unit>)
    ensures |us| == |d|
  {
    if d == [] then [] else [Octet(d[0])] + Octets(d[1..])
  }

  function Links(v: Value, n: nat): (us: seq<Unit>)
    ensures |us| == n
  {
    if n == 0 then [] else [Link(v)] + Links(v, n - 1)
  }

  function Units(kind: Kind, v: Value): (us: seq<Unit>)
    requires Fits(kind, v)
    ensures !kind.IsSubset() ==> |us| == LeafSize(kind)
  {
    if Stored(kind) then Octets(v.data) else Links(v, POINTER_SIZE)
  }

  function Store(mem: Memory, a: Place, us: seq<Unit>): Memory
    decreases |us|
  {
    if us == [] then mem else Store(mem[a := us[0]], a.Plus(1), us[1..])
  }

  function Load(mem: Memory, a: Place, n: nat): Option<seq<Unit>>
    decreases n
  {
    if n == 0 then Some([])
    else if a !in mem then None
    else
      match Load(mem, a.Plus(1), n - 1)
      case None => None
      case Some(us) => Some([mem[a]] + us)
  }

  function DataOf(us: seq<Unit>): Option<seq<byte>> {
    if us == [] then Some([])
    else if us[0].Link? then None
    else
      match DataOf(us[1..])
      case None => None
      case Some(d) => Some([us[0].b] + d)
  }

  function ValueIn(kind: Kind, us: seq<Unit>): Option<Value> {
    if Stored(kind) then
      match DataOf(us)
      case None => None
      case Some(d) => Some(Raw(d))
    else if us != [] && us[0].Link? then Some(us[0].v)
    else None
  }

  lemma {:induction false} DataOfOctets(d: seq<byte>)
    ensures DataOf(Octets(d)) == Some(d)
  {
    if d != [] {
      DataOfOctets(d[1..]);
      assert Octets(d)[1..] == Octets(d[1..]);
      assert [d[0]] + d[1..] == d;
    }
  }

  lemma ValueInUnits(kind: Kind, v: Value)
    requires Fits(kind, v)
    ensures ValueIn(kind, Units(kind, v)) == Some(v)
  {
    if Stored(kind) {
      DataOfOctets(v.data);
    } else {
      assert Links(v, POINTER_SIZE)[0] == Link(v);
    }
  }

  /** A store changes the places it writes and no others. */
  lemma {:induction false} StoreAt(mem: Memory, a: Place, us: seq<Unit>, p: Place)
    ensures
      var inside := p.block == a.block && a.off <= p.off < a.off + |us|;
      && (p in Store(mem, a, us) <==> inside || p in mem)
      && (inside ==> Store(mem, a, us)[p] == us[p.off - a.off])
      && (!inside && p in mem ==> Store(mem, a, us)[p] == mem[p])
    decreases |us|
  {
    if us != [] {
      StoreAt(mem[a := us[0]], a.Plus(1), us[1..], p);
    }
  }

  lemma {:induction false} LoadStored(mem: Memory, a: Place, us: seq<Unit>, k: nat)
    requires k <= |us|
    ensures Load(Store(mem, a, us), a.Plus(k), |us| - k) == Some(us[k..])
    decreases |us| - k
  {
    if k < |us| {
      StoreAt(mem, a, us, a.Plus(k));
      LoadStored(mem, a, us, k + 1);
      assert a.Plus(k).Plus(1) == a.Plus(k + 1);
      assert us[k..] == [us[k]] + us[k + 1..];
    } else {
      assert us[k..] == [];
    }
  }

  lemma {:induction false} LoadOther(mem: Memory, a: Place, us: seq<Unit>, b: Place, n: nat)
    requires a.block != b.block || a.off + |us| <= b.off || b.off + n <= a.off
    ensures Load(Store(mem, a, us), b, n) == Load(mem, b, n)
    decreases n
  {
    if n > 0 {
      StoreAt(mem, a, us, b);
      LoadOther(mem, a, us, b.Plus(1), n - 1);
    }
  }

  // ------------------------------------------------------------------------
  // Leaves at their addresses

  predicate IsLeaf(root: Node, l: Loc) {
    l.At? && ValidLoc(root, l) && !ElemOf(root, l).kind.IsSubset()
  }

  /** The value of a leaf instance, read at its address. */
  function ReadLeaf(root: Node, mem: Memory, l: Loc): Option<Value>
    requires IsLeaf(root, l)
  {
    var kind := ElemOf(root, l).kind;
    match Load(mem, AddrOf(root, l), LeafSize(kind))
    case None => None
    case Some(us) => ValueIn(kind, us)
  }

  function WriteLeaf(root: Node, mem: Memory, l: Loc, v: Value): Memory
    requires IsLeaf(root, l) && Fits(ElemOf(root, l).kind, v)
  {
    Store(mem, AddrOf(root, l), Units(ElemOf(root, l).kind, v))
  }

  lemma WriteRead(root: Node, mem: Memory, l: Loc, v: Value)
    requires IsLeaf(root, l) && Fits(ElemOf(root, l).kind, v)
    ensures ReadLeaf(root, WriteLeaf(root, mem, l, v), l) == Some(v)
  {
    hide AddrOf, Load, Store, Units, ValueIn;
    var kind := ElemOf(root, l).kind;
    var a := AddrOf(root, l);
    var us := Units(kind, v);
    LoadStored(mem, a, us, 0);
    assert a.Plus(0) == a && us[0..] == us;
    ValueInUnits(kind, v);
  }

  /** Different leaves do not disturb one another. */
  lemma WriteReadOther(root: Node, mem: Memory, l: Loc, v: Value, l': Loc)
    requires IsLeaf(root, l) && Fits(ElemOf(root, l).kind, v) && IsLeaf(root, l') && l != l'
    ensures ReadLeaf(root, WriteLeaf(root, mem, l, v), l') == ReadLeaf(root, mem, l')
  {
    hide AddrOf, Load, Store, Units, ValueIn;
    LeavesApart(root, l, l');
    LoadOther(mem, AddrOf(root, l), Units(ElemOf(root, l).kind, v), AddrOf(root, l'), LeafSize(ElemOf(root, l').kind));
  }

  /** The memory holds every value of the record at its address. */
  ghost predicate Holds(root: Node, mem: Memory, m: Record) {
    forall l :: l in m ==> IsLeaf(root, l) && ReadLeaf(root, mem, l) == Some(m[l])
  }

  lemma HoldsMore(root: Node, mem: Memory, m: Record, l: Loc, v: Value)
    requires Holds(root, mem, m) && IsLeaf(root, l) && Fits(ElemOf(root, l).kind, v)
    ensures Holds(root, WriteLeaf(root, mem, l, v), m[l := v])
  {
    hide ReadLeaf, WriteLeaf;
    WriteRead(root, mem, l, v);
    forall l' | l' in m[l := v]
      ensures IsLeaf(root, l') && ReadLeaf(root, WriteLeaf(root, mem, l, v), l') == Some(m[l := v][l'])
    {
      if l' != l { WriteReadOther(root, mem, l, v, l'); }
    }
  }

  // ------------------------------------------------------------------------
  // One walk that follows another

  /** `e` is the element of the instance. */
  ghost predicate Here(root: Node, e: Elem, at: Loc) { at.At? && ValidLoc(root, at) && ElemOf(root, at) == e }

  /** Every callback of `w` does on related states what that of `v` does, where that succeeds. */
  ghost predicate Follows<S(!new), T(!new)>(root: Node, v: Visitor<S>, w: Visitor<T>, R: (S, T) -> bool) {
    && (forall e :: v.Test(e) == w.Test(e))
    && (forall s, t, e, at, def :: R(s, t) && Here(root, e, at) && v.Enter(s, e, at, def).Ok? ==>
          && w.Enter(t, e, at, def).Ok? && R(v.Enter(s, e, at, def).value.0, w.Enter(t, e, at, def).value.0)
          && v.Enter(s, e, at, def).value.1 == w.Enter(t, e, at, def).value.1
          && (e.kind.SubStruct? ==> v.Enter(s, e, at, def).value.1 == InPlace(e.kind)))
    && (forall s, t, e, at, n :: R(s, t) && v.Again(s, e, at, n).Ok? ==>
          w.Again(t, e, at, n).Ok? && R(v.Again(s, e, at, n).value, w.Again(t, e, at, n).value))
    && (forall s, t, e, at, n :: R(s, t) && v.Exit(s, e, at, n).Ok? ==>
          && w.Exit(t, e, at, n).Ok? && R(v.Exit(s, e, at, n).value.0, w.Exit(t, e, at, n).value.0)
          && v.Exit(s, e, at, n).value.1 == w.Exit(t, e, at, n).value.1)
    && (forall s, t, e, at, def :: R(s, t) && Here(root, e, at) && !e.kind.IsSubset() && v.Proc(s, e, at, def).Ok? ==>
          w.Proc(t, e, at, def).Ok? && R(v.Proc(s, e, at, def).value, w.Proc(t, e, at, def).value))
  }

  /** The second walk succeeds, in a related state. */
  ghost predicate Matches<S, T>(a: Outcome<S>, b: Outcome<T>, R: (S, T) -> bool) {
    a.Done? ==> b.Done? && R(a.s, b.s)
  }

  lemma {:induction false} SimElems<S(!new), T(!new)>(root: Node, v: Visitor<S>, w: Visitor<T>, R: (S, T) -> bool,
                                                    node: Node, i: nat, loc: Loc, s: S, t: T)
    requires Follows(root, v, w, R) && R(s, t)
    requires ValidLoc(root, loc) && ValidNode(root, PathOf(loc)) && NodeAt(root, PathOf(loc)) == node && i <= |node.elems|
    ensures Matches(RunElems(v, node, i, loc, s), RunElems(w, node, i, loc, t), R)
    decreases node, |node.elems| - i, 0
  {
    hide Follows;
    if i < |node.elems| {
      SimElem(root, v, w, R, node.elems[i], i, loc, s, t);
      var a, b := RunElem(v, node.elems[i], loc, i, s), RunElem(w, node.elems[i], loc, i, t);
      if a.Done? {
        SimElems(root, v, w, R, node, i + 1, loc, a.s, b.s);
      }
    }
  }

  lemma {:induction false} SimElem<S(!new), T(!new)>(root: Node, v: Visitor<S>, w: Visitor<T>, R: (S, T) -> bool,
                                                   e: Elem, i: nat, loc: Loc, s: S, t: T)
    requires Follows(root, v, w, R) && R(s, t)
    requires ValidLoc(root, loc) && ValidNode(root, PathOf(loc)) && i < |NodeAt(root, PathOf(loc)).elems|
    requires NodeAt(root, PathOf(loc)).elems[i] == e
    ensures Matches(RunElem(v, e, loc, i, s), RunElem(w, e, loc, i, t), R)
    decreases e, 1, 0
  {
    var here := At(loc, i, 0);
    var def := DefLoc(e.def, here);
    assert Here(root, e, here);
    if v.Test(e) && e.kind.IsSubset() {
      var a, b := v.Enter(s, e, here, def), w.Enter(t, e, here, def);
      if a.Ok? && !(e.kind.IsArray() && a.value.1 == 0) {
        SimRepeat(root, v, w, R, e, i, loc, 0, a.value.1, a.value.0, b.value.0);
      }
    }
  }

  lemma {:induction false} SimRepeat<S(!new), T(!new)>(root: Node, v: Visitor<S>, w: Visitor<T>, R: (S, T) -> bool,
                                                     e: Elem, i: nat, loc: Loc, j: nat, limit: int, s: S, t: T)
    requires Follows(root, v, w, R) && R(s, t) && e.kind.IsSubset()
    requires ValidLoc(root, loc) && ValidNode(root, PathOf(loc)) && i < |NodeAt(root, PathOf(loc)).elems|
    requires NodeAt(root, PathOf(loc)).elems[i] == e
    requires e.kind.SubStruct? ==> j < limit == InPlace(e.kind)
    ensures Matches(RunRepeat(v, e, loc, i, j, limit, s), RunRepeat(w, e, loc, i, j, limit, t), R)
    decreases e, 0, limit - j
  {
    var here := At(loc, i, j);
    SimElems(root, v, w, R, e.ref, 0, here, s, t);
    var a, b := RunElems(v, e.ref, 0, here, s), RunElems(w, e.ref, 0, here, t);
    if a.Done? {
      var next := At(loc, i, j + 1);
      var x, y := v.Exit(a.s, e, next, limit), w.Exit(b.s, e, next, limit);
      if x.Ok? && !x.value.1 && j + 1 < limit {
        var p, q := v.Again(x.value.0, e, next, limit), w.Again(y.value.0, e, next, limit);
        if p.Ok? {
          SimRepeat(root, v, w, R, e, i, loc, j + 1, limit, p.value, q.value);
        }
        assert Matches(RunAgain(v, e, loc, i, j + 1, limit, x.value.0), RunAgain(w, e, loc, i, j + 1, limit, y.value.0), R);
      }
      assert Matches(AfterBody(v, e, loc, i, j, limit, a.s), AfterBody(w, e, loc, i, j, limit, b.s), R);
    }
  }

  // ------------------------------------------------------------------------
  // Packing from memory

  /** What the memory says of one instance. */
  function ReadAt(root: Node, mem: Memory, l: Loc): Record {
    if IsLeaf(root, l) && ReadLeaf(root, mem, l).Some? then map[l := ReadLeaf(root, mem, l).value] else map[]
  }

  /** `struct_2_blob` on memory: each callback reads the leaf and its length element at their
      addresses. */
  function PackMemVisitor(root: Node, mem: Memory): Visitor<Packing> {
    Visitor((e: Elem) => true,
            (s: Packing, e: Elem, at: Loc, def: Loc) => PackEnter(root, ReadAt(root, mem, def), s, e, def),
            (s: Packing, e: Elem, at: Loc, limit: int) => Ok(s),
            (s: Packing, e: Elem, at: Loc, limit: int) => Ok((s, false)),
            (s: Packing, e: Elem, at: Loc, def: Loc) =>
              PackLeaf(root, ReadAt(root, mem, at) + ReadAt(root, mem, def), s, e, at, def))
  }

  function PackMem(root: Node, mem: Memory): Result<Packing> {
    RunElems(PackMemVisitor(root, mem), root, 0, Top, Packing([], {})).Res()
  }

  lemma ReadHeld(root: Node, mem: Memory, m: Record, l: Loc)
    requires Holds(root, mem, m)
    ensures l in m ==> l in ReadAt(root, mem, l) && ReadAt(root, mem, l)[l] == m[l]
  {
    hide ReadLeaf;
  }

  lemma PackEnterSame(root: Node, mem: Memory, m: Record, s: Packing, e: Elem, def: Loc)
    requires Holds(root, mem, m) && PackEnter(root, m, s, e, def).Ok?
    ensures PackEnter(root, ReadAt(root, mem, def), s, e, def) == PackEnter(root, m, s, e, def)
  {
    hide ReadAt, Holds;
    ReadHeld(root, mem, m, def);
  }

  lemma PackLeafSame(root: Node, mem: Memory, m: Record, s: Packing, e: Elem, at: Loc, def: Loc)
    requires Holds(root, mem, m) && PackLeaf(root, m, s, e, at, def).Ok?
    ensures PackLeaf(root, ReadAt(root, mem, at) + ReadAt(root, mem, def), s, e, at, def) == PackLeaf(root, m, s, e, at, def)
  {
    hide Holds, ReadLeaf;
    ReadHeld(root, mem, m, at);
    ReadHeld(root, mem, m, def);
  }

  lemma CountInPlace(root: Node, m: Record, s: Packing, e: Elem, def: Loc)
    requires e.kind.SubStruct? && PackEnter(root, m, s, e, def).Ok?
    ensures PackEnter(root, m, s, e, def).value.1 == InPlace(e.kind)
  {
  }

  /** Packing from a memory that holds the record is packing the record. */
  lemma PackFromMemory(root: Node, mem: Memory, m: Record)
    requires Holds(root, mem, m) && Pack(root, m).Ok?
    ensures PackMem(root, mem) == Pack(root, m)
  {
    var v, w := PackVisitor(root, m), PackMemVisitor(root, mem);
    var R := (s: Packing, t: Packing) => s == t;
    PackFollows(root, mem, m, R);
    SimElems(root, v, w, R, root, 0, Top, Packing([], {}), Packing([], {}));
  }

  lemma PackFollows(root: Node, mem: Memory, m: Record, R: (Packing, Packing) -> bool)
    requires Holds(root, mem, m) && forall s, t :: R(s, t) <==> s == t
    ensures Follows(root, PackVisitor(root, m), PackMemVisitor(root, mem), R)
  {
    hide PackEnter, PackLeaf, ReadAt, Holds, Here;
    var v, w := PackVisitor(root, m), PackMemVisitor(root, mem);
    forall s, t, e, at, def | R(s, t) && Here(root, e, at) && v.Enter(s, e, at, def).Ok?
      ensures w.Enter(t, e, at, def) == v.Enter(s, e, at, def)
      ensures e.kind.SubStruct? ==> v.Enter(s, e, at, def).value.1 == InPlace(e.kind)
    {
      PackEnterSame(root, mem, m, s, e, def);
      if e.kind.SubStruct? { CountInPlace(root, m, s, e, def); }
    }
    forall s, t, e, at, def | R(s, t) && v.Proc(s, e, at, def).Ok?
      ensures w.Proc(t, e, at, def) == v.Proc(s, e, at, def)
    {
      PackLeafSame(root, mem, m, s, e, at, def);
    }
  }

  // ------------------------------------------------------------------------
  // Unpacking into memory

  /** The memory so far, and how much of the blob was read. */
  datatype Filling = Filling(mem: Memory, off: nat)

  function FillEnter(root: Node, s: Filling, e: Elem, def: Loc): Result<(Filling, int)> {
    match UnpackEnter(root, Unpacking(ReadAt(root, s.mem, def), s.off), e, def)
    case Err(c) => Err(c)
    case Ok((_, n)) => Ok((s, n))
  }

  function FillLeaf(root: Node, input: seq<byte>, s: Filling, e: Elem, at: Loc, def: Loc): Result<Filling> {
    match UnpackLeaf(root, input, Unpacking(ReadAt(root, s.mem, def), s.off), e, at, def)
    case Err(c) => Err(c)
    case Ok(u) =>
      if IsLeaf(root, at) && at in u.rec && Fits(ElemOf(root, at).kind, u.rec[at])
      then Ok(Filling(WriteLeaf(root, s.mem, at, u.rec[at]), u.off))
      else Err(EINVAL)
  }

  /** `blob_2_struct` on memory. */
  function FillVisitor(root: Node, input: seq<byte>): Visitor<Filling> {
    Visitor((e: Elem) => true,
            (s: Filling, e: Elem, at: Loc, def: Loc) => FillEnter(root, s, e, def),
            (s: Filling, e: Elem, at: Loc, limit: int) => Ok(s),
            (s: Filling, e: Elem, at: Loc, limit: int) => Ok((s, false)),
            (s: Filling, e: Elem, at: Loc, def: Loc) => FillLeaf(root, input, s, e, at, def))
  }

  function Fill(root: Node, input: seq<byte>, mem: Memory): Result<Filling> {
    RunElems(FillVisitor(root, input), root, 0, Top, Filling(mem, 0)).Res()
  }

  /** The memory holds what is unpacked so far. */
  ghost predicate Filled(root: Node, u: Unpacking, f: Filling) { u.off == f.off && Holds(root, f.mem, u.rec) }

  lemma FillEnterSame(root: Node, u: Unpacking, f: Filling, e: Elem, def: Loc)
    requires Filled(root, u, f) && UnpackEnter(root, u, e, def).Ok?
    ensures FillEnter(root, f, e, def) == Ok((f, UnpackEnter(root, u, e, def).value.1))
    ensures UnpackEnter(root, u, e, def).value.0 == u
    ensures e.kind.SubStruct? ==> UnpackEnter(root, u, e, def).value.1 == InPlace(e.kind)
  {
    hide ReadAt, Holds;
    ReadHeld(root, f.mem, u.rec, def);
  }

  /** Decoded values fit their places. */
  lemma DecodedFits(kind: Kind, n: nat, data: seq<byte>)
    requires !kind.IsSubset() && DecodeLeaf(kind, n, data).Ok?
    ensures Fits(kind, DecodeLeaf(kind, n, data).value.0)
  {
  }

  lemma FillLeafSame(root: Node, input: seq<byte>, u: Unpacking, f: Filling, e: Elem, at: Loc, def: Loc)
    requires Filled(root, u, f) && Here(root, e, at) && !e.kind.IsSubset() && UnpackLeaf(root, input, u, e, at, def).Ok?
    ensures FillLeaf(root, input, f, e, at, def).Ok?
    ensures Filled(root, UnpackLeaf(root, input, u, e, at, def).value, FillLeaf(root, input, f, e, at, def).value)
  {
    hide ReadAt, Holds, DecodeLeaf, WriteLeaf;
    ReadHeld(root, f.mem, u.rec, def);
    var n := LeafLength(root, u.rec, e, def).value;
    DecodedFits(e.kind, n, input[u.off..]);
    var v := DecodeLeaf(e.kind, n, input[u.off..]).value.0;
    HoldsMore(root, f.mem, u.rec, at, v);
  }

  lemma FillFollows(root: Node, input: seq<byte>, R: (Unpacking, Filling) -> bool)
    requires forall u, f :: R(u, f) <==> Filled(root, u, f)
    ensures Follows(root, UnpackVisitor(root, input), FillVisitor(root, input), R)
  {
    hide UnpackEnter, UnpackLeaf, FillEnter, FillLeaf, Filled, Here;
    var v, w := UnpackVisitor(root, input), FillVisitor(root, input);
    forall u, f, e, at, def | R(u, f) && Here(root, e, at) && v.Enter(u, e, at, def).Ok?
      ensures w.Enter(f, e, at, def) == Ok((f, v.Enter(u, e, at, def).value.1)) && v.Enter(u, e, at, def).value.0 == u
      ensures e.kind.SubStruct? ==> v.Enter(u, e, at, def).value.1 == InPlace(e.kind)
    {
      FillEnterSame(root, u, f, e, def);
    }
    forall u, f, e, at, def | R(u, f) && Here(root, e, at) && !e.kind.IsSubset() && v.Proc(u, e, at, def).Ok?
      ensures w.Proc(f, e, at, def).Ok? && R(v.Proc(u, e, at, def).value, w.Proc(f, e, at, def).value)
    {
      FillLeafSame(root, input, u, f, e, at, def);
    }
  }

  /** Unpacking into any memory leaves it holding the unpacked record. */
  lemma UnpackIntoMemory(root: Node, input: seq<byte>, mem: Memory)
    requires Unpack(root, input).Ok?
    ensures Fill(root, input, mem).Ok? && Filled(root, Unpack(root, input).value, Fill(root, input, mem).value)
  {
    var R := (u: Unpacking, f: Filling) => Filled(root, u, f);
    FillFollows(root, input, R);
    assert Filled(root, Unpacking(map[], 0), Filling(mem, 0));
    SimElems(root, UnpackVisitor(root, input), FillVisitor(root, input), R, root, 0, Top, Unpacking(map[], 0), Filling(mem, 0));
  }

  /** From memory to memory: the blob packed from a memory that holds a record, unpacked into
      any other memory, leaves that memory holding the record, and packs to the same blob. */
  lemma MemoryRoundTrip(root: Node, mem: Memory, m: Record, rest: seq<byte>, mem': Memory)
    requires DefsSettled(root, root, Root)
    requires Holds(root, mem, m) && Pack(root, m).Ok? && Whole(root, m)
    ensures PackMem(root, mem).Ok?
    ensures
      var blob := PackMem(root, mem).value.blob;
      var r := Fill(root, blob + rest, mem');
      && r.Ok? && r.value.off == |blob| && Holds(root, r.value.mem, m)
      && PackMem(root, r.value.mem).Ok? && PackMem(root, r.value.mem).value.blob == blob
  {
    hide Pack, Unpack, PackMem, Fill, DefsSettled, Holds;
    PackFromMemory(root, mem, m);
    var blob := Pack(root, m).value.blob;
    RoundTrip(root, m, rest);
    UnpackIntoMemory(root, blob + rest, mem');
    PackFromMemory(root, Fill(root, blob + rest, mem').value.mem, m);
  }

  /** The same by the walks on one shared template. */
  method CopyRecord(t: Template, mem: Memory, mem': Memory, ghost m: Record) returns (r: Result<Memory>)
    requires t.AtRest() && DefsSettled(t.root, t.root, Root)
    requires Holds(t.root, mem, m) && Pack(t.root, m).Ok? && Whole(t.root, m)
    modifies t`tempVar, t`index, t`limit
    ensures t.AtRest() && r.Ok? && Holds(t.root, r.value, m)
  {
    hide DefsSettled, Holds;
    MemoryRoundTrip(t.root, mem, m, [], mem');
    var p := t.Convert(PackMemVisitor(t.root, mem), Packing([], {}));
    assert p.value.blob + [] == p.value.blob;
    var f := t.Convert(FillVisitor(t.root, p.value.blob), Filling(mem', 0));
    r := Ok(f.value.mem);
  }
}
