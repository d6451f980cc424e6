/** Packing a record into a blob and unpacking it again, as callbacks on the walk
    over a template (`struct_2_blob`, `blob_2_struct`, `_elem_get_bin_value`,
    `_elem_set_bin_value`).

    A record maps each leaf instance to its value.  Integers are little endian in
    records, as on the machine the program runs on. */
module StructCodec {
  import opened Base
  import opened StructWalk
  import opened StructRecord

  const DIGEST_SIZE: nat := 32

  // ------------------------------------------------------------------------
  // One element

  predicate NoZero(s: seq<byte>) { forall k :: 0 <= k < |s| ==> s[k] != 0 }

  /** `Strlen`: where the first zero byte is, or nothing when there is none. */
  function Strlen(s: seq<byte>): (r: Result<nat>)
    ensures r.Ok? ==> r.value < |s| && s[r.value] == 0 && NoZero(s[..r.value])
  {
    if s == [] then Err(EINVAL)
    else if s[0] == 0 then Ok(0)
    else
      match Strlen(s[1..])
      case Err(c) => Err(c)
      case Ok(n) =>
        assert s[..n + 1] == [s[0]] + s[1..][..n];
        Ok(n + 1)
  }

  lemma {:induction false} StrlenAppend(name: seq<byte>, rest: seq<byte>)
    requires NoZero(name)
    ensures Strlen(name + [0] + rest) == Ok(|name|)
  {
    if name != [] {
      assert (name + [0] + rest)[1..] == name[1..] + [0] + rest;
      StrlenAppend(name[1..], rest);
    }
  }

  /** `get_int_value`, and the unsigned read of an element without it. */
  function IntValue(kind: Kind, v: Value): Result<int> {
    match (kind, v)
    case (Scalar(w), Raw(d)) =>
      if |d| != w then Err(EINVAL)
      else if w == 1 then Ok(Signed(LeastFirst(d), 0x80))
      else if w == 2 then Ok(Signed(LeastFirst(d), 0x8000))
      else if w >= 4 then Ok(Signed(LeastFirst(d[..4]), 0x8000_0000))
      else Err(EINVAL)
    case (Tpm16, Raw(d)) => if |d| != 2 then Err(EINVAL) else Ok(LeastFirst(d))
    case _ => Err(EINVAL)
  }

  function LeastFirst(d: seq<byte>): nat {
    if d == [] then 0 else d[0] as nat + 256 * LeastFirst(d[1..])
  }

  /** A little endian word as a signed integer with values from `-half` below `half`. */
  function Signed(x: int, half: int): int { if x < half then x else x - 2 * half }

  /** `namelist_get_bin_value`: the name, a zero byte, and the four bytes of the value. */
  function EncodeName(e: Name): Result<seq<byte>> {
    if !NoZero(e.name) || |e.name| > DIGEST_SIZE || |e.value| != 4 then Err(EINVAL)
    else Ok(e.name + [0] + e.value)
  }

  /** `namelist_set_bin_value`: the entry at the front, and how many bytes it took. */
  function DecodeName(data: seq<byte>): (r: Result<(Name, nat)>)
    ensures r.Ok? ==> 0 < r.value.1 <= |data|
  {
    match Strlen(data)
    case Err(c) => Err(c)
    case Ok(len) =>
      if len > DIGEST_SIZE || len + 5 > |data| then Err(EINVAL)
      else Ok((Name(data[..len], data[len + 1..len + 5]), len + 5))
  }

  lemma NameRoundTrip(e: Name, rest: seq<byte>)
    requires EncodeName(e).Ok?
    ensures DecodeName(EncodeName(e).value + rest) == Ok((e, |EncodeName(e).value|))
  {
    var data := EncodeName(e).value + rest;
    assert data == e.name + [0] + (e.value + rest);
    StrlenAppend(e.name, e.value + rest);
    assert data[..|e.name|] == e.name && data[|e.name| + 1..|e.name| + 5] == e.value;
  }

  function EncodeNames(list: seq<Name>): Result<seq<byte>> {
    if list == [] then Ok([])
    else
      match (EncodeName(list[0]), EncodeNames(list[1..]))
      case (Ok(a), Ok(b)) => Ok(a + b)
      case _ => Err(EINVAL)
  }

  /** `n` entries, and how many bytes they took. */
  function DecodeNames(n: nat, data: seq<byte>): Result<(seq<Name>, nat)> {
    if n == 0 then Ok(([], 0))
    else
      match DecodeName(data)
      case Err(c) => Err(c)
      case Ok((e, used)) =>
        match DecodeNames(n - 1, data[used..])
        case Err(c) => Err(c)
        case Ok((list, more)) => Ok(([e] + list, used + more))
  }

  lemma {:induction false} NamesRoundTrip(list: seq<Name>, rest: seq<byte>)
    requires EncodeNames(list).Ok?
    ensures DecodeNames(|list|, EncodeNames(list).value + rest) == Ok((list, |EncodeNames(list).value|))
  {
    if list != [] {
      var a, b := EncodeName(list[0]).value, EncodeNames(list[1..]).value;
      NamesRoundTrip(list[1..], rest);
      NameRoundTrip(list[0], b + rest);
      var data := a + (b + rest);
      assert data[|a|..] == b + rest;
      DecodeNamesStep(|list|, data, list[0], |a|, list[1..], |b|);
      assert [list[0]] + list[1..] == list;
      assert (a + b) + rest == data;
    }
  }

  lemma DecodeNamesStep(n: nat, data: seq<byte>, e: Name, used: nat, list: seq<Name>, more: nat)
    requires n > 0 && DecodeName(data) == Ok((e, used)) && DecodeNames(n - 1, data[used..]) == Ok((list, more))
    ensures DecodeNames(n, data) == Ok(([e] + list, used + more))
  {
  }

  /** The blob bytes of a leaf whose length element says `n`. */
  function EncodeLeaf(kind: Kind, n: nat, v: Value): Result<seq<byte>> {
    match (kind, v)
    case (Scalar(w), Raw(d)) => Exactly(d, w)
    case (Bytes(w), Raw(d)) => Exactly(d, w)
    case (Tpm16, Raw(d)) => if |d| == 2 then Ok([d[1], d[0]]) else Err(EINVAL)
    case (EString, Raw(d)) => if NoZero(d) then Ok(d + [0]) else Err(EINVAL)
    case (Define, Raw(d)) => Exactly(d, n)
    case (DefStrArray(unit), Raw(d)) => Exactly(d, n * unit)
    case (DefUuidArray, Raw(d)) => Exactly(d, n * DIGEST_SIZE)
    case (DefNameList, Names(list)) => if |list| == n then EncodeNames(list) else Err(EINVAL)
    case _ => Err(EINVAL)
  }

  function Exactly(d: seq<byte>, n: nat): Result<seq<byte>> { if |d| == n then Ok(d) else Err(EINVAL) }

  /** The value at the front of a blob, and how many bytes it took. */
  function DecodeLeaf(kind: Kind, n: nat, data: seq<byte>): Result<(Value, nat)> {
    match kind
    case Scalar(w) => TakeRaw(data, w)
    case Bytes(w) => TakeRaw(data, w)
    case Tpm16 => if |data| >= 2 then Ok((Raw([data[1], data[0]]), 2)) else Err(EINVAL)
    case EString =>
      (match Strlen(data)
       case Err(c) => Err(c)
       case Ok(len) => Ok((Raw(data[..len]), len + 1)))
    case Define => TakeRaw(data, n)
    case DefStrArray(unit) => TakeRaw(data, n * unit)
    case DefUuidArray => TakeRaw(data, n * DIGEST_SIZE)
    case DefNameList =>
      (match DecodeNames(n, data)
       case Err(c) => Err(c)
       case Ok((list, used)) => Ok((Names(list), used)))
    case _ => Err(EINVAL)
  }

  function TakeRaw(data: seq<byte>, n: nat): Result<(Value, nat)> {
    if |data| >= n then Ok((Raw(data[..n]), n)) else Err(EINVAL)
  }

  lemma LeafRoundTrip(kind: Kind, n: nat, v: Value, rest: seq<byte>)
    requires EncodeLeaf(kind, n, v).Ok?
    ensures DecodeLeaf(kind, n, EncodeLeaf(kind, n, v).value + rest) == Ok((v, |EncodeLeaf(kind, n, v).value|))
  {
    var b := EncodeLeaf(kind, n, v).value;
    assert (b + rest)[..|b|] == b;
    match kind
    case EString =>
      StrlenAppend(v.data, rest);
      assert (b + rest)[..|v.data|] == v.data;
    case DefNameList => NamesRoundTrip(v.list, rest);
    case Tpm16 => assert v.data == [v.data[0], v.data[1]];
    case _ =>
  }

  // ------------------------------------------------------------------------
  // The callbacks

  /** `_elem_get_defvalue`: the length a define element has in a record. */
  function LengthOf(root: Node, m: Record, e: Elem, def: Loc): Result<nat> {
    if !ValidElem(root, e.def) || def !in m then Err(EINVAL)
    else
      match IntValue(ElemAt(root, e.def).kind, m[def])
      case Err(c) => Err(c)
      case Ok(n) => if n < 0 then Err(EINVAL) else Ok(n)
  }

  /** How often a subset element is repeated. */
  function CountOf(root: Node, m: Record, e: Elem, def: Loc): Result<nat>
    requires e.kind.IsSubset()
  {
    match e.kind
    case DefArray => LengthOf(root, m, e, def)
    case SubStruct(count) => Ok(if count == 0 then 1 else count)
    case FixArray(count) => Ok(if count == 0 then 1 else count)
  }

  function LeafLength(root: Node, m: Record, e: Elem, def: Loc): Result<nat> {
    if e.kind.IsDefine() then LengthOf(root, m, e, def) else Ok(0)
  }

  /** The blob so far, and which leaf instances went into it. */
  datatype Packing = Packing(blob: seq<byte>, seen: set<Loc>)

  function PackEnter(root: Node, m: Record, s: Packing, e: Elem, def: Loc): Result<(Packing, int)> {
    if !e.kind.IsSubset() then Err(EINVAL)
    else
      match CountOf(root, m, e, def)
      case Err(c) => Err(c)
      case Ok(n) => Ok((s, n))
  }

  function PackLeaf(root: Node, m: Record, s: Packing, e: Elem, at: Loc, def: Loc): Result<Packing> {
    if at !in m then Err(EINVAL)
    else
      match LeafLength(root, m, e, def)
      case Err(c) => Err(c)
      case Ok(n) =>
        match EncodeLeaf(e.kind, n, m[at])
        case Err(c) => Err(c)
        case Ok(b) => Ok(Packing(s.blob + b, s.seen + {at}))
  }

  /** The selected elements: all, or those whose flag shares a bit (`part_deal_test`). */
  predicate Passes(sel: Selection, e: Elem) {
    match sel
    case All => true
    case Sharing(flag) => e.flag & flag != 0
  }

  /** The callbacks of `struct_2_blob` and `struct_2_part_blob`. */
  function Selecting(root: Node, m: Record, sel: Selection): Visitor<Packing> {
    Visitor((e: Elem) => Passes(sel, e),
            (s: Packing, e: Elem, at: Loc, def: Loc) => PackEnter(root, m, s, e, def),
            (s: Packing, e: Elem, at: Loc, limit: int) => Ok(s),
            (s: Packing, e: Elem, at: Loc, limit: int) => Ok((s, false)),
            (s: Packing, e: Elem, at: Loc, def: Loc) => PackLeaf(root, m, s, e, at, def))
  }

  function PackVisitor(root: Node, m: Record): Visitor<Packing> { Selecting(root, m, All) }

  /** The record so far, and how much of the blob was read. */
  datatype Unpacking = Unpacking(rec: Record, off: nat)

  function UnpackEnter(root: Node, s: Unpacking, e: Elem, def: Loc): Result<(Unpacking, int)> {
    if !e.kind.IsSubset() then Err(EINVAL)
    else
      match CountOf(root, s.rec, e, def)
      case Err(c) => Err(c)
      case Ok(n) => Ok((s, n))
  }

  function UnpackLeaf(root: Node, input: seq<byte>, s: Unpacking, e: Elem, at: Loc, def: Loc): Result<Unpacking> {
    match LeafLength(root, s.rec, e, def)
    case Err(c) => Err(c)
    case Ok(n) =>
      if s.off > |input| then Err(EINVAL)
      else
        match DecodeLeaf(e.kind, n, input[s.off..])
        case Err(c) => Err(c)
        case Ok((v, used)) => Ok(Unpacking(s.rec[at := v], s.off + used))
  }

  function UnpackVisitor(root: Node, input: seq<byte>): Visitor<Unpacking> {
    Visitor((e: Elem) => true,
            (s: Unpacking, e: Elem, at: Loc, def: Loc) => UnpackEnter(root, s, e, def),
            (s: Unpacking, e: Elem, at: Loc, limit: int) => Ok(s),
            (s: Unpacking, e: Elem, at: Loc, limit: int) => Ok((s, false)),
            (s: Unpacking, e: Elem, at: Loc, def: Loc) => UnpackLeaf(root, input, s, e, at, def))
  }

  function PackPart(root: Node, m: Record, sel: Selection): Result<Packing> {
    RunElems(Selecting(root, m, sel), root, 0, Top, Packing([], {})).Res()
  }

  function Pack(root: Node, m: Record): Result<Packing> { PackPart(root, m, All) }

  function Unpack(root: Node, input: seq<byte>): Result<Unpacking> {
    RunElems(UnpackVisitor(root, input), root, 0, Top, Unpacking(map[], 0)).Res()
  }

  // ------------------------------------------------------------------------
  // Length elements come first

  /** `d` hangs under the same node as `p` or a node above `p`, before the way to `p`. */
  ghost predicate LeftOf(d: Path, p: Path) {
    d.Step? && p.Step? && ((d.up == p.up && d.i < p.i) || LeftOf(d, p.up))
  }

  /** `d` is visited before `p`, in the first repetition of the elements that lead
      to it and not to `p`; these are never empty. */
  ghost predicate Settled(root: Node, d: Path, p: Path) {
    && ValidElem(root, d)
    && (LeftOf(d, p) || (Settled(root, d.up, p) && !ElemAt(root, d.up).kind.DefArray?))
  }

  /** Every define element below the node at `p` has an earlier leaf as its length element. */
  ghost predicate DefsSettled(root: Node, node: Node, p: Path) {
    forall i :: 0 <= i < |node.elems| ==>
      && (node.elems[i].kind.IsDefine() ==>
            Settled(root, node.elems[i].def, Step(p, i)) && !ElemAt(root, node.elems[i].def).kind.IsSubset())
      && (node.elems[i].kind.IsSubset() ==> DefsSettled(root, node.elems[i].ref, Step(p, i)))
  }

  /** The leaves in the first repetitions below element `k` are among `keys`. */
  ghost predicate Covered(e: Elem, up: Loc, k: nat, keys: set<Loc>) {
    if !e.kind.IsSubset() then At(up, k, 0) in keys
    else e.kind.DefArray? || (forall i :: 0 <= i < |e.ref.elems| ==> Covered(e.ref.elems[i], At(up, k, 0), i, keys))
  }

  /** So are the leaves of everything before the way to `loc`. */
  ghost predicate Context(root: Node, loc: Loc, keys: set<Loc>)
    requires loc.At? ==> ValidNode(root, PathOf(loc.up))
  {
    loc.Top? ||
    (&& Context(root, loc.up, keys)
     && loc.i <= |NodeAt(root, PathOf(loc.up)).elems|
     && forall k :: 0 <= k < loc.i ==> Covered(NodeAt(root, PathOf(loc.up)).elems[k], loc.up, k, keys))
  }

  lemma {:induction false} CoveredGrows(e: Elem, up: Loc, k: nat, keys: set<Loc>, more: set<Loc>)
    requires Covered(e, up, k, keys) && keys <= more
    ensures Covered(e, up, k, more)
  {
    if e.kind.IsSubset() && !e.kind.DefArray? {
      forall i | 0 <= i < |e.ref.elems| ensures Covered(e.ref.elems[i], At(up, k, 0), i, more) {
        CoveredGrows(e.ref.elems[i], At(up, k, 0), i, keys, more);
      }
    }
  }

  lemma {:induction false} ContextGrows(root: Node, loc: Loc, keys: set<Loc>, more: set<Loc>)
    requires loc.At? ==> ValidNode(root, PathOf(loc.up))
    requires Context(root, loc, keys) && keys <= more
    ensures Context(root, loc, more)
  {
    if loc.At? {
      ContextGrows(root, loc.up, keys, more);
      forall k | 0 <= k < loc.i ensures Covered(NodeAt(root, PathOf(loc.up)).elems[k], loc.up, k, more) {
        CoveredGrows(NodeAt(root, PathOf(loc.up)).elems[k], loc.up, k, keys, more);
      }
    }
  }

  /** `loc` is on the way to `here`. */
  ghost predicate OnWay(loc: Loc, here: Loc) {
    loc == here || (here.At? && OnWay(loc, here.up))
  }

  lemma {:induction false} OnWayDepth(loc: Loc, here: Loc)
    requires OnWay(loc, here)
    ensures LocDepth(loc) <= LocDepth(here) && OnPath(PathOf(loc), PathOf(here))
    ensures Depth(PathOf(loc)) == LocDepth(loc) && Depth(PathOf(here)) == LocDepth(here)
    decreases here
  {
    DepthOfPath(loc);
    DepthOfPath(here);
    if loc != here { OnWayDepth(loc, here.up); }
  }

  lemma {:induction false} DepthOfPath(loc: Loc)
    ensures Depth(PathOf(loc)) == LocDepth(loc)
  {
    if loc.At? { DepthOfPath(loc.up); }
  }

  /** An element on the way is seen in the repetition of the way. */
  lemma {:induction false} RepOnWay(loc: Loc, here: Loc)
    requires loc.At? && OnWay(loc, here)
    ensures RepOf(PathOf(loc), here) == loc.j
    decreases here
  {
    if loc != here {
      OnWayDepth(loc, here.up);
      assert Depth(PathOf(loc)) < Depth(PathOf(here)) by { OnWayDepth(loc, here); }
      RepOnWay(loc, here.up);
    }
  }

  lemma {:induction false} DefLocOnWay(loc: Loc, here: Loc)
    requires OnWay(loc, here)
    ensures DefLoc(PathOf(loc), here) == loc
    decreases loc
  {
    if loc.At? {
      OnWayUp(loc, here);
      RepOnWay(loc, here);
      DefLocOnWay(loc.up, here);
    }
  }

  lemma {:induction false} OnWayUp(loc: Loc, here: Loc)
    requires loc.At? && OnWay(loc, here)
    ensures OnWay(loc.up, here)
    decreases here
  {
    if loc == here { assert OnWay(loc.up, here.up); } else { OnWayUp(loc, here.up); }
  }

  /** What is left of the way is seen in its first repetition. */
  lemma {:induction false} RepOffPath(d: Path, here: Loc)
    requires !OnPath(d, PathOf(here))
    ensures RepOf(d, here) == 0
  {
    if here.At? { RepOffPath(d, here.up); }
  }

  lemma {:induction false} LeftOffPath(d: Path, p: Path)
    requires LeftOf(d, p)
    ensures !OnPath(d, p) && Depth(d) <= Depth(p)
    decreases p
  {
    if d.up == p.up && d.i < p.i {
      assert Depth(d) == Depth(p.up) + 1;
      OnPathDepth(d, p.up);
    } else {
      LeftOffPath(d, p.up);
    }
  }

  lemma {:induction false} OffPathBelow(d: Path, p: Path)
    requires d.Step? && !OnPath(d.up, p)
    ensures !OnPath(d, p)
    decreases p
  {
    if p.Step? {
      OffPathBelow(d, p.up);
      assert OnPath(p.up, p);
    }
  }

  lemma {:induction false} SettledOffPath(root: Node, d: Path, p: Path)
    requires Settled(root, d, p)
    ensures !OnPath(d, p)
    decreases d
  {
    if LeftOf(d, p) {
      LeftOffPath(d, p);
    } else {
      SettledOffPath(root, d.up, p);
      OffPathBelow(d, p);
    }
  }

  /** The node of `d` is on the way to `here`, and the context covers `d`. */
  lemma {:induction false} LeftCovered(root: Node, d: Path, loc: Loc, here: Loc, keys: set<Loc>)
    requires loc.At? && OnWay(loc, here) && ValidNode(root, PathOf(loc.up)) && Context(root, loc, keys)
    requires LeftOf(d, PathOf(loc)) && ValidElem(root, d)
    ensures Covered(ElemAt(root, d), DefLoc(d.up, here), d.i, keys)
    decreases loc
  {
    OnWayUp(loc, here);
    if d.up == PathOf(loc).up && d.i < loc.i {
      DefLocOnWay(loc.up, here);
    } else {
      LeftCovered(root, d, loc.up, here, keys);
    }
  }

  lemma {:induction false} SettledCovered(root: Node, d: Path, here: Loc, keys: set<Loc>)
    requires here.At? && ValidNode(root, PathOf(here.up)) && Context(root, here, keys)
    requires Settled(root, d, PathOf(here))
    ensures Covered(ElemAt(root, d), DefLoc(d.up, here), d.i, keys)
    decreases d
  {
    if LeftOf(d, PathOf(here)) {
      LeftCovered(root, d, here, here, keys);
    } else {
      SettledCovered(root, d.up, here, keys);
      SettledOffPath(root, d.up, PathOf(here));
      RepOffPath(d.up, here);
    }
  }

  /** The length element of a settled define element is among the keys. */
  lemma LengthKnown(root: Node, d: Path, here: Loc, keys: set<Loc>)
    requires here.At? && ValidNode(root, PathOf(here.up)) && Context(root, here, keys)
    requires Settled(root, d, PathOf(here)) && !ElemAt(root, d).kind.IsSubset()
    ensures DefLoc(d, here) in keys
  {
    SettledCovered(root, d, here, keys);
    SettledOffPath(root, d, PathOf(here));
    RepOffPath(d, here);
  }

  // ------------------------------------------------------------------------
  // Packing only appends

  /** One repetition, and then the others. */
  lemma PackRepeatStep(root: Node, m: Record, sel: Selection, e: Elem, loc: Loc, i: nat, j: nat, limit: int, s: Packing)
    ensures
      var v := Selecting(root, m, sel);
      RunRepeat(v, e, loc, i, j, limit, s) ==
      match RunElems(v, e.ref, 0, At(loc, i, j), s)
      case Fail(c, n) => Fail(c, n + 1)
      case Done(s', n) => if j + 1 < limit then RunRepeat(v, e, loc, i, j + 1, limit, s').Plus(n + 2) else Done(s', n + 2)
  {
    hide RunElems, RunElem;
    var v := Selecting(root, m, sel);
    var body := RunElems(v, e.ref, 0, At(loc, i, j), s);
    if body.Done? && j + 1 < limit {
      assert RunAgain(v, e, loc, i, j + 1, limit, body.s) == RunRepeat(v, e, loc, i, j + 1, limit, body.s);
      assert AfterBody(v, e, loc, i, j, limit, body.s) == RunRepeat(v, e, loc, i, j + 1, limit, body.s).Plus(1);
    }
  }

  /** One repetition, and then the others. */
  lemma UnpackRepeatStep(root: Node, input: seq<byte>, e: Elem, loc: Loc, i: nat, j: nat, limit: int, s: Unpacking)
    ensures
      var v := UnpackVisitor(root, input);
      RunRepeat(v, e, loc, i, j, limit, s) ==
      match RunElems(v, e.ref, 0, At(loc, i, j), s)
      case Fail(c, n) => Fail(c, n + 1)
      case Done(s', n) => if j + 1 < limit then RunRepeat(v, e, loc, i, j + 1, limit, s').Plus(n + 2) else Done(s', n + 2)
  {
    hide RunElems, RunElem;
    var v := UnpackVisitor(root, input);
    var body := RunElems(v, e.ref, 0, At(loc, i, j), s);
    if body.Done? && j + 1 < limit {
      assert RunAgain(v, e, loc, i, j + 1, limit, body.s) == RunRepeat(v, e, loc, i, j + 1, limit, body.s);
      assert AfterBody(v, e, loc, i, j, limit, body.s) == RunRepeat(v, e, loc, i, j + 1, limit, body.s).Plus(1);
    }
  }

  lemma {:induction false} PackGrowsElems(root: Node, m: Record, node: Node, i: nat, loc: Loc, s: Packing)
    requires i <= |node.elems|
    ensures
      var o := RunElems(PackVisitor(root, m), node, i, loc, s);
      o.Done? ==> s.blob <= o.s.blob && s.seen <= o.s.seen
    decreases node, |node.elems| - i, 0
  {
    if i < |node.elems| {
      PackGrowsElem(root, m, node.elems[i], loc, i, s);
      var o := RunElem(PackVisitor(root, m), node.elems[i], loc, i, s);
      if o.Done? { PackGrowsElems(root, m, node, i + 1, loc, o.s); }
    }
  }

  lemma {:induction false} PackGrowsElem(root: Node, m: Record, e: Elem, loc: Loc, i: nat, s: Packing)
    ensures
      var o := RunElem(PackVisitor(root, m), e, loc, i, s);
      o.Done? ==> s.blob <= o.s.blob && s.seen <= o.s.seen
    decreases e, 1, 0
  {
    var r := PackEnter(root, m, s, e, DefLoc(e.def, At(loc, i, 0)));
    if e.kind.IsSubset() && r.Ok? {
      PackGrowsRepeat(root, m, e, loc, i, 0, r.value.1, s);
    }
  }

  lemma {:induction false} PackGrowsRepeat(root: Node, m: Record, e: Elem, loc: Loc, i: nat, j: nat, limit: int, s: Packing)
    ensures
      var o := RunRepeat(PackVisitor(root, m), e, loc, i, j, limit, s);
      o.Done? ==> s.blob <= o.s.blob && s.seen <= o.s.seen
    decreases e, 0, limit - j
  {
    hide RunElems, RunElem, RunRepeat;
    PackRepeatStep(root, m, All, e, loc, i, j, limit, s);
    PackGrowsElems(root, m, e.ref, 0, At(loc, i, j), s);
    var o := RunElems(PackVisitor(root, m), e.ref, 0, At(loc, i, j), s);
    if o.Done? && j + 1 < limit { PackGrowsRepeat(root, m, e, loc, i, j + 1, limit, o.s); }
  }

  // ------------------------------------------------------------------------
  // What is packed

  lemma NumberSame(kind: Kind, v: Value)
    ensures IntValue(kind, v) == match Number(kind, v) case None => Err(EINVAL) case Some(n) => Ok(n)
  {
    hide LeastFirst;
    if v.Raw? { FewBytes(v.data); }
  }

  lemma FewBytes(d: seq<byte>)
    ensures |d| == 1 ==> LeastFirst(d) == d[0] as int
    ensures |d| == 2 ==> LeastFirst(d) == d[0] as int + 0x100 * (d[1] as int)
    ensures |d| >= 4 ==>
      LeastFirst(d[..4]) == d[0] as int + 0x100 * (d[1] as int) + 0x1_0000 * (d[2] as int) + 0x100_0000 * (d[3] as int)
  {
    if |d| == 1 {
      assert LeastFirst(d[1..]) == 0;
    } else if |d| == 2 {
      assert d[1..] == [d[1]] && LeastFirst([d[1]][1..]) == 0;
      assert LeastFirst(d[1..]) == d[1] as int;
    } else if |d| >= 4 {
      var w := d[..4];
      var x, y, z := w[1..], w[2..], w[3..];
      assert x[1..] == y && y[1..] == z && z[1..] == [];
      assert LeastFirst(z) == d[3] as int;
      assert LeastFirst(y) == d[2] as int + 0x100 * LeastFirst(z);
      assert LeastFirst(x) == d[1] as int + 0x100 * LeastFirst(y);
    }
  }

  lemma LengthSame(root: Node, m: Record, e: Elem, at: Loc)
    ensures LengthOf(root, m, e, DefLoc(e.def, at)) == match Length(root, m, e, at) case None => Err(EINVAL) case Some(n) => Ok(n)
  {
    hide IntValue, Number;
    var def := DefLoc(e.def, at);
    if ValidElem(root, e.def) && def in m {
      NumberSame(ElemAt(root, e.def).kind, m[def]);
    }
  }

  lemma CountSame(root: Node, m: Record, e: Elem, at: Loc)
    requires e.kind.IsSubset()
    ensures CountOf(root, m, e, DefLoc(e.def, at)) == match Repeats(root, m, e, at) case None => Err(EINVAL) case Some(n) => Ok(n)
  {
    hide LengthOf, Length;
    LengthSame(root, m, e, at);
  }

  /** The bytes of one leaf of the record; none if it has no value that can be packed. */
  function BytesAt(root: Node, m: Record, loc: Loc): Option<seq<byte>> {
    if loc.Top? || !ValidNode(root, PathOf(loc.up)) || loc.i >= |NodeAt(root, PathOf(loc.up)).elems| || loc !in m then None
    else
      var e := NodeAt(root, PathOf(loc.up)).elems[loc.i];
      match Entries(root, m, e, loc)
      case None => None
      case Some(n) =>
        match EncodeLeaf(e.kind, n, m[loc])
        case Err(_) => None
        case Ok(b) => Some(b)
  }

  /** The bytes of the leaves, one behind the other. */
  function BytesOf(root: Node, m: Record, o: seq<Loc>): Option<seq<byte>> {
    if o == [] then Some([])
    else
      match BytesOf(root, m, o[..|o| - 1])
      case None => None
      case Some(a) =>
        match BytesAt(root, m, o[|o| - 1])
        case None => None
        case Some(b) => Some(a + b)
  }

  lemma {:induction false} BytesJoin(root: Node, m: Record, a: seq<Loc>, b: seq<Loc>)
    ensures BytesOf(root, m, a + b) ==
            if BytesOf(root, m, a).Some? && BytesOf(root, m, b).Some?
            then Some(BytesOf(root, m, a).value + BytesOf(root, m, b).value) else None
  {
    hide BytesAt;
    if b == [] {
      assert a + b == a;
      if BytesOf(root, m, a).Some? { assert BytesOf(root, m, a).value + [] == BytesOf(root, m, a).value; }
    } else {
      var c := b[..|b| - 1];
      assert (a + b)[..|a + b| - 1] == a + c;
      BytesJoin(root, m, a, c);
      if BytesOf(root, m, a).Some? && BytesOf(root, m, c).Some? && BytesAt(root, m, b[|b| - 1]).Some? {
        var x, y, z := BytesOf(root, m, a).value, BytesOf(root, m, c).value, BytesAt(root, m, b[|b| - 1]).value;
        assert (x + y) + z == x + (y + z);
      }
    }
  }

  function SetOf(o: seq<Loc>): set<Loc> { set x | x in o }

  /** The walk packs the leaves of the order, or fails where the order or a value is missing. */
  ghost predicate PacksOrder(root: Node, m: Record, s: Packing, r: Outcome<Packing>, o: Option<seq<Loc>>) {
    if o.Some? && BytesOf(root, m, o.value).Some?
    then r.Done? && r.s == Packing(s.blob + BytesOf(root, m, o.value).value, s.seen + SetOf(o.value))
    else r.Fail?
  }

  /** Two parts of a walk, the second from where the first ended. */
  lemma PacksJoin(root: Node, m: Record, s: Packing, r: Outcome<Packing>, r': Outcome<Packing>, a: Option<seq<Loc>>, b: Option<seq<Loc>>)
    requires PacksOrder(root, m, s, r, a) && (r.Done? ==> PacksOrder(root, m, r.s, r', b))
    ensures var o := if a.Some? && b.Some? then Some(a.value + b.value) else None;
      if r.Fail? then PacksOrder(root, m, s, r, o) else PacksOrder(root, m, s, r', o)
  {
    if a.Some? && b.Some? {
      BytesJoin(root, m, a.value, b.value);
      assert SetOf(a.value + b.value) == SetOf(a.value) + SetOf(b.value);
      hide BytesOf;
      if r.Done? && BytesOf(root, m, b.value).Some? {
        assert (s.seen + SetOf(a.value)) + SetOf(b.value) == s.seen + (SetOf(a.value) + SetOf(b.value));
        assert (s.blob + BytesOf(root, m, a.value).value) + BytesOf(root, m, b.value).value ==
               s.blob + (BytesOf(root, m, a.value).value + BytesOf(root, m, b.value).value);
      }
    }
  }

  lemma {:induction false} PackElemsExact(root: Node, m: Record, sel: Selection, node: Node, i: nat, loc: Loc, s: Packing)
    requires ValidNode(root, PathOf(loc)) && NodeAt(root, PathOf(loc)) == node && i <= |node.elems|
    ensures PacksOrder(root, m, s, RunElems(Selecting(root, m, sel), node, i, loc, s), Order(root, m, sel, node, i, loc))
    decreases node, |node.elems| - i, 0
  {
    if i == |node.elems| {
      NothingPacked(root, m, s, 0);
    } else {
      hide PacksOrder, RunElem, OrderElem;
      var v := Selecting(root, m, sel);
      var r := RunElem(v, node.elems[i], loc, i, s);
      PackElemExact(root, m, sel, node.elems[i], i, loc, s);
      var r' := if r.Done? then RunElems(v, node, i + 1, loc, r.s) else r;
      if r.Done? { PackElemsExact(root, m, sel, node, i + 1, loc, r.s); }
      PacksJoin(root, m, s, r, r', OrderElem(root, m, sel, node.elems[i], i, loc), Order(root, m, sel, node, i + 1, loc));
      if r.Done? {
        PacksPlus(root, m, s, r', Order(root, m, sel, node, i, loc), r.steps);
      }
    }
  }

  lemma NothingPacked(root: Node, m: Record, s: Packing, n: nat)
    ensures PacksOrder(root, m, s, Done(s, n), Some([]))
  {
    assert s.blob + [] == s.blob && s.seen + SetOf([]) == s.seen;
  }

  lemma PacksPlus(root: Node, m: Record, s: Packing, r: Outcome<Packing>, o: Option<seq<Loc>>, n: nat)
    requires PacksOrder(root, m, s, r, o)
    ensures PacksOrder(root, m, s, r.Plus(n), o)
  {
  }

  lemma {:induction false} PackElemExact(root: Node, m: Record, sel: Selection, e: Elem, i: nat, loc: Loc, s: Packing)
    requires ValidNode(root, PathOf(loc)) && i < |NodeAt(root, PathOf(loc)).elems| && NodeAt(root, PathOf(loc)).elems[i] == e
    ensures PacksOrder(root, m, s, RunElem(Selecting(root, m, sel), e, loc, i, s), OrderElem(root, m, sel, e, i, loc))
    decreases e, 2, 0
  {
    hide PacksOrder, RunElem, OrderElem, Passes;
    if !Passes(sel, e) {
      SkippedElem(root, m, sel, e, i, loc, s);
      NothingPacked(root, m, s, 1);
    } else if !e.kind.IsSubset() {
      LeafElem(root, m, sel, e, i, loc, s);
      PackLeafExact(root, m, e, i, loc, s);
    } else {
      PackSubsetExact(root, m, sel, e, i, loc, s);
    }
  }

  lemma SkippedElem(root: Node, m: Record, sel: Selection, e: Elem, i: nat, loc: Loc, s: Packing)
    requires !Passes(sel, e)
    ensures RunElem(Selecting(root, m, sel), e, loc, i, s) == Done(s, 1) && OrderElem(root, m, sel, e, i, loc) == Some([])
  {
  }

  lemma LeafElem(root: Node, m: Record, sel: Selection, e: Elem, i: nat, loc: Loc, s: Packing)
    requires Passes(sel, e) && !e.kind.IsSubset()
    ensures OrderElem(root, m, sel, e, i, loc) == Some([At(loc, i, 0)])
    ensures RunElem(Selecting(root, m, sel), e, loc, i, s) == LeafOutcome(PackLeaf(root, m, s, e, At(loc, i, 0), DefLoc(e.def, At(loc, i, 0))))
  {
    hide PackLeaf, DefLoc;
  }

  function LeafOutcome(r: Result<Packing>): Outcome<Packing> {
    match r
    case Err(c) => Fail(c, 1)
    case Ok(s) => Done(s, 1)
  }

  lemma {:induction false} PackSubsetExact(root: Node, m: Record, sel: Selection, e: Elem, i: nat, loc: Loc, s: Packing)
    requires ValidNode(root, PathOf(loc)) && i < |NodeAt(root, PathOf(loc)).elems| && NodeAt(root, PathOf(loc)).elems[i] == e
    requires Passes(sel, e) && e.kind.IsSubset()
    ensures PacksOrder(root, m, s, RunElem(Selecting(root, m, sel), e, loc, i, s), OrderElem(root, m, sel, e, i, loc))
    decreases e, 1, 0
  {
    hide CountOf, Repeats, PacksOrder, RunRepeat, OrderRepeats, DefLoc;
    var here := At(loc, i, 0);
    CountSame(root, m, e, here);
    var n := Repeats(root, m, e, here);
    SubsetEntry(root, m, sel, e, i, loc, s);
    if n.None? {
      NoOrder(root, m, s, EINVAL);
    } else if n == Some(0) {
      SomeRepeats(root, m, e, here);
      NothingPacked(root, m, s, 1);
    } else {
      PackRepeatsExact(root, m, sel, e, i, loc, 0, n.value, s);
    }
  }

  /** How a walk and the order go on at a subset element that is selected. */
  lemma SubsetEntry(root: Node, m: Record, sel: Selection, e: Elem, i: nat, loc: Loc, s: Packing)
    requires Passes(sel, e) && e.kind.IsSubset()
    ensures
      var here := At(loc, i, 0);
      var v := Selecting(root, m, sel);
      match Repeats(root, m, e, here)
      case None => RunElem(v, e, loc, i, s) == Fail(EINVAL, 1) && OrderElem(root, m, sel, e, i, loc) == None
      case Some(n) =>
        && (n == 0 ==> RunElem(v, e, loc, i, s) == Done(s, 1) && OrderElem(root, m, sel, e, i, loc) == Some([]))
        && (n > 0 ==>
              && RunElem(v, e, loc, i, s) == RunRepeat(v, e, loc, i, 0, n, s)
              && OrderElem(root, m, sel, e, i, loc) == OrderRepeats(root, m, sel, e, i, loc, 0, n))
  {
    hide CountOf, Repeats, RunRepeat, DefLoc;
    var here := At(loc, i, 0);
    CountSame(root, m, e, here);
    if Repeats(root, m, e, here) == Some(0) { SomeRepeats(root, m, e, here); }
  }

  lemma SomeRepeats(root: Node, m: Record, e: Elem, at: Loc)
    requires e.kind.IsSubset() && Repeats(root, m, e, at) == Some(0)
    ensures e.kind.IsArray()
  {
  }

  lemma NoOrder(root: Node, m: Record, s: Packing, c: int)
    ensures PacksOrder(root, m, s, Fail(c, 1), None)
  {
  }

  lemma PackLeafExact(root: Node, m: Record, e: Elem, i: nat, loc: Loc, s: Packing)
    requires ValidNode(root, PathOf(loc)) && i < |NodeAt(root, PathOf(loc)).elems| && NodeAt(root, PathOf(loc)).elems[i] == e
    requires !e.kind.IsSubset()
    ensures var here := At(loc, i, 0);
      var r := PackLeaf(root, m, s, e, here, DefLoc(e.def, here));
      PacksOrder(root, m, s, LeafOutcome(r), Some([here]))
  {
    hide LengthOf, Length, EncodeLeaf;
    var here := At(loc, i, 0);
    LengthSame(root, m, e, here);
    assert [here][..0] == [] && SetOf([here]) == {here};
    assert BytesOf(root, m, []) == Some([]);
    assert forall b: seq<byte> :: [] + b == b;
  }

  lemma {:induction false} PackRepeatsExact(root: Node, m: Record, sel: Selection, e: Elem, i: nat, loc: Loc, j: nat, n: nat, s: Packing)
    requires ValidNode(root, PathOf(loc)) && i < |NodeAt(root, PathOf(loc)).elems| && NodeAt(root, PathOf(loc)).elems[i] == e
    requires e.kind.IsSubset() && j < n
    ensures PacksOrder(root, m, s, RunRepeat(Selecting(root, m, sel), e, loc, i, j, n, s), OrderRepeats(root, m, sel, e, i, loc, j, n))
    decreases e, 0, n - j
  {
    hide PacksOrder, RunElems, RunRepeat, Order;
    var v, here := Selecting(root, m, sel), At(loc, i, j);
    var r := RunElems(v, e.ref, 0, here, s);
    PackRepeatStep(root, m, sel, e, loc, i, j, n, s);
    PackElemsExact(root, m, sel, e.ref, 0, here, s);
    var a, b := Order(root, m, sel, e.ref, 0, here), OrderRepeats(root, m, sel, e, i, loc, j + 1, n);
    if r.Done? && j + 1 < n {
      PackRepeatsExact(root, m, sel, e, i, loc, j + 1, n, r.s);
      var r' := RunRepeat(v, e, loc, i, j + 1, n, r.s);
      PacksJoin(root, m, s, r, r', a, b);
      PacksPlus(root, m, s, r', OrderRepeats(root, m, sel, e, i, loc, j, n), r.steps + 2);
    } else if r.Done? {
      NothingPacked(root, m, r.s, r.steps + 2);
      PacksJoin(root, m, s, r, Done(r.s, r.steps + 2), a, b);
    } else {
      PacksJoin(root, m, s, r, r, a, b);
      PacksPlus(root, m, s, r, OrderRepeats(root, m, sel, e, i, loc, j, n), 1);
    }
  }

  /** What a full or a partial pack does with any record: it succeeds exactly if every length
      on the way is there and every selected leaf has a value that can be packed; it takes
      exactly the selected leaves of the record, in the order of the template; and the blob is
      their bytes, one leaf behind the other. */
  lemma PackExact(root: Node, m: Record, sel: Selection)
    ensures
      var o := Order(root, m, sel, root, 0, Top);
      var r := PackPart(root, m, sel);
      && (r.Ok? <==> o.Some? && BytesOf(root, m, o.value).Some?)
      && (r.Ok? ==>
            && r.value.blob == BytesOf(root, m, o.value).value && r.value.seen == SetOf(o.value)
            && Ascending(o.value))
  {
    hide PacksOrder, Ascending;
    var o := Order(root, m, sel, root, 0, Top);
    PackElemsExact(root, m, sel, root, 0, Top, Packing([], {}));
    FromNothing(root, m, RunElems(Selecting(root, m, sel), root, 0, Top, Packing([], {})), o);
    if o.Some? { OrderAscends(root, m, sel, root, 0, Top); }
  }

  lemma FromNothing(root: Node, m: Record, r: Outcome<Packing>, o: Option<seq<Loc>>)
    requires PacksOrder(root, m, Packing([], {}), r, o)
    ensures r.Done? <==> o.Some? && BytesOf(root, m, o.value).Some?
    ensures r.Done? ==> r.s == Packing(BytesOf(root, m, o.value).value, SetOf(o.value))
  {
    if r.Done? {
      var b := BytesOf(root, m, o.value).value;
      assert [] + b == b && {} + SetOf(o.value) == SetOf(o.value);
    }
  }

  /** The leaves that a pack takes: those of the record whose element, and every element above
      it, is selected. */
  lemma PackTakes(root: Node, m: Record, sel: Selection, loc: Loc)
    requires PackPart(root, m, sel).Ok?
    ensures loc in PackPart(root, m, sel).value.seen <==> LeafOf(root, m, loc) && Chosen(root, sel, loc)
  {
    hide HasInstance, Chosen, Ascending, Order;
    PackExact(root, m, sel);
    TopChosen(root, m, sel);
    OrderExact(root, m, sel, root, 0, Top, loc);
    BelowTop(root, m, sel, loc);
  }

  lemma TopChosen(root: Node, m: Record, sel: Selection)
    ensures HasInstance(root, m, Top) && Chosen(root, sel, Top)
  {
  }

  lemma {:induction false} BelowTop(root: Node, m: Record, sel: Selection, loc: Loc)
    ensures Taken(root, m, sel, loc) <==> LeafOf(root, m, loc) && Chosen(root, sel, loc)
    ensures loc.At? ==> BelowElems(Top, 0, loc)
  {
    if loc.At? { BelowTop(root, m, sel, loc.up); }
  }

  lemma {:induction false} AllChosen(root: Node, m: Record, loc: Loc)
    requires HasInstance(root, m, loc)
    ensures Chosen(root, All, loc)
  {
    if loc.At? { AllChosen(root, m, loc.up); }
  }

  /** A record that has its leaves and nothing else is packed as a whole. */
  lemma WholeSeen(root: Node, m: Record)
    requires Whole(root, m) && Pack(root, m).Ok?
    ensures Pack(root, m).value.seen == m.Keys
  {
    hide Chosen, HasInstance;
    forall loc
      ensures loc in Pack(root, m).value.seen <==> loc in m
    {
      PackTakes(root, m, All, loc);
      if LeafOf(root, m, loc) { AllChosen(root, m, loc); }
    }
  }

  /** A flag of zero selects nothing. */
  lemma PackNone(root: Node, m: Record)
    ensures PackPart(root, m, Sharing(0)).Ok? && PackPart(root, m, Sharing(0)).value.blob == []
  {
    hide Ascending;
    PackExact(root, m, Sharing(0));
    NoneShared(root, m, root, 0, Top);
  }

  lemma {:induction false} NoneShared(root: Node, m: Record, node: Node, i: nat, loc: Loc)
    requires i <= |node.elems|
    ensures Order(root, m, Sharing(0), node, i, loc) == Some([])
    decreases |node.elems| - i
  {
    if i < |node.elems| {
      NoBits(node.elems[i].flag);
      assert OrderElem(root, m, Sharing(0), node.elems[i], i, loc) == Some([]);
      NoneShared(root, m, node, i + 1, loc);
      assert Order(root, m, Sharing(0), node, i, loc).value == [];
    }
  }

  lemma NoBits(x: bv32)
    ensures x & 0 == 0
  {
  }

  /** Every element shares a bit with the flag. */
  predicate AllShare(node: Node, flag: bv32) {
    forall i :: 0 <= i < |node.elems| ==> node.elems[i].flag & flag != 0 && AllShare(node.elems[i].ref, flag)
  }

  /** A flag that all elements carry selects everything. */
  lemma PackAll(root: Node, m: Record, flag: bv32)
    requires AllShare(root, flag) && Pack(root, m).Ok?
    ensures PackPart(root, m, Sharing(flag)) == Pack(root, m)
  {
    hide Ascending;
    PackExact(root, m, Sharing(flag));
    PackExact(root, m, All);
    OrderShared(root, m, flag, root, 0, Top);
  }

  lemma {:induction false} OrderShared(root: Node, m: Record, flag: bv32, node: Node, i: nat, loc: Loc)
    requires i <= |node.elems| && AllShare(node, flag)
    ensures Order(root, m, Sharing(flag), node, i, loc) == Order(root, m, All, node, i, loc)
    decreases node, |node.elems| - i, 0
  {
    if i < |node.elems| {
      var e := node.elems[i];
      if e.kind.IsSubset() && Repeats(root, m, e, At(loc, i, 0)).Some? {
        OrderRepeatsShared(root, m, flag, e, i, loc, 0, Repeats(root, m, e, At(loc, i, 0)).value);
      }
      OrderShared(root, m, flag, node, i + 1, loc);
    }
  }

  lemma {:induction false} OrderRepeatsShared(root: Node, m: Record, flag: bv32, e: Elem, i: nat, loc: Loc, j: nat, n: nat)
    requires AllShare(e.ref, flag)
    ensures OrderRepeats(root, m, Sharing(flag), e, i, loc, j, n) == OrderRepeats(root, m, All, e, i, loc, j, n)
    decreases e, 0, n - j
  {
    if j < n {
      OrderShared(root, m, flag, e.ref, 0, At(loc, i, j));
      OrderRepeatsShared(root, m, flag, e, i, loc, j + 1, n);
    }
  }

  /** Which bytes of the blob hold a leaf, and which values can be packed. */
  lemma LeafLayout(kind: Kind, n: nat, d: seq<byte>)
    ensures
      var r := EncodeLeaf(kind, n, Raw(d));
      match kind
      case Scalar(w) => r == if |d| == w then Ok(d) else Err(EINVAL)
      case Bytes(w) => r == if |d| == w then Ok(d) else Err(EINVAL)
      case Tpm16 =>
        && (r.Ok? <==> |d| == 2)
        && (r.Ok? ==> |r.value| == 2 && Number(Tpm16, Raw(d)) == Some(0x100 * (r.value[0] as int) + r.value[1] as int))
      case EString => r == if 0 in d then Err(EINVAL) else Ok(d + [0])
      case Define => r == if |d| == n then Ok(d) else Err(EINVAL)
      case DefStrArray(unit) => r == if |d| == n * unit then Ok(d) else Err(EINVAL)
      case DefUuidArray => r == if |d| == n * 32 then Ok(d) else Err(EINVAL)
      case _ => r == Err(EINVAL)
  {
  }

  /** A name and a value in the blob: the characters, a zero byte, and four bytes. */
  lemma NameLayout(list: seq<Name>)
    ensures
      var r := EncodeLeaf(DefNameList, |list|, Names(list));
      if list == [] then r == Ok([])
      else
        var e, rest := list[0], EncodeLeaf(DefNameList, |list| - 1, Names(list[1..]));
        && (r.Ok? <==> 0 !in e.name && |e.name| <= 32 && |e.value| == 4 && rest.Ok?)
        && (r.Ok? ==> r.value == e.name + [0] + e.value + rest.value)
  {
  }

  // ------------------------------------------------------------------------
  // Unpacking follows packing

  /** The unpacked part agrees with the record and with what was packed so far. */
  ghost predicate Agrees(m: Record, p: Packing, u: Unpacking) {
    && u.off == |p.blob|
    && u.rec.Keys == p.seen
    && forall k :: k in u.rec ==> k in m && u.rec[k] == m[k]
  }

  lemma ContextOn(root: Node, loc: Loc, i: nat, keys: set<Loc>)
    requires ValidNode(root, PathOf(loc)) && i < |NodeAt(root, PathOf(loc)).elems| && Context(root, At(loc, i, 0), keys)
    requires Covered(NodeAt(root, PathOf(loc)).elems[i], loc, i, keys)
    ensures Context(root, At(loc, i + 1, 0), keys)
  {
    hide Covered;
  }

  lemma {:induction false} FollowElems(root: Node, m: Record, input: seq<byte>, node: Node, i: nat, loc: Loc, p: Packing, u: Unpacking)
    returns (u': Unpacking)
    requires ValidNode(root, PathOf(loc)) && NodeAt(root, PathOf(loc)) == node && i <= |node.elems|
    requires DefsSettled(root, node, PathOf(loc))
    requires Context(root, At(loc, i, 0), p.seen) && Agrees(m, p, u)
    requires
      var o := RunElems(PackVisitor(root, m), node, i, loc, p);
      o.Done? && o.s.blob <= input
    ensures
      var o := RunElems(PackVisitor(root, m), node, i, loc, p);
      && RunElems(UnpackVisitor(root, input), node, i, loc, u) == Done(u', o.steps)
      && Agrees(m, o.s, u')
      && Context(root, At(loc, |node.elems|, 0), o.s.seen)
    decreases node, |node.elems| - i, 0
  {
    hide RunElem, Context, Agrees, Covered;
    var o := RunElems(PackVisitor(root, m), node, i, loc, p);
    u' := u;
    if i < |node.elems| {
      var o1 := RunElem(PackVisitor(root, m), node.elems[i], loc, i, p);
      PackGrowsElems(root, m, node, i + 1, loc, o1.s);
      PackGrowsElem(root, m, node.elems[i], loc, i, p);
      var u1 := FollowElem(root, m, input, node.elems[i], i, loc, p, u);
      ContextGrows(root, At(loc, i, 0), p.seen, o1.s.seen);
      ContextOn(root, loc, i, o1.s.seen);
      u' := FollowElems(root, m, input, node, i + 1, loc, o1.s, u1);
    }
  }

  lemma {:induction false} FollowElem(root: Node, m: Record, input: seq<byte>, e: Elem, i: nat, loc: Loc, p: Packing, u: Unpacking)
    returns (u': Unpacking)
    requires ValidNode(root, PathOf(loc)) && i < |NodeAt(root, PathOf(loc)).elems| && NodeAt(root, PathOf(loc)).elems[i] == e
    requires DefsSettled(root, NodeAt(root, PathOf(loc)), PathOf(loc))
    requires Context(root, At(loc, i, 0), p.seen) && Agrees(m, p, u)
    requires
      var o := RunElem(PackVisitor(root, m), e, loc, i, p);
      o.Done? && o.s.blob <= input
    ensures
      var o := RunElem(PackVisitor(root, m), e, loc, i, p);
      && RunElem(UnpackVisitor(root, input), e, loc, i, u) == Done(u', o.steps)
      && Agrees(m, o.s, u')
      && Covered(e, loc, i, o.s.seen)
    decreases e, 1, 0
  {
    var here := At(loc, i, 0);
    var def := DefLoc(e.def, here);
    if e.kind.IsDefine() {
      LengthKnown(root, e.def, here, p.seen);
      assert LengthOf(root, u.rec, e, def) == LengthOf(root, m, e, def);
    }
    if e.kind.IsSubset() {
      var n := CountOf(root, m, e, def).value;
      if n == 0 {
        u' := u;
      } else {
        assert PathOf(At(loc, i, 0)) == Step(PathOf(loc), i);
        u' := FollowRepeat(root, m, input, e, i, loc, 0, n, p, u);
      }
    } else {
      u' := FollowLeaf(root, m, input, e, here, def, p, u);
    }
  }

  lemma FollowLeaf(root: Node, m: Record, input: seq<byte>, e: Elem, here: Loc, def: Loc, p: Packing, u: Unpacking)
    returns (u': Unpacking)
    requires !e.kind.IsSubset() && Agrees(m, p, u)
    requires e.kind.IsDefine() ==> LengthOf(root, u.rec, e, def) == LengthOf(root, m, e, def)
    requires
      var o := PackLeaf(root, m, p, e, here, def);
      o.Ok? && o.value.blob <= input
    ensures
      var o := PackLeaf(root, m, p, e, here, def);
      && UnpackLeaf(root, input, u, e, here, def) == Ok(u')
      && Agrees(m, o.value, u') && here in o.value.seen
  {
    var n := LeafLength(root, m, e, def).value;
    var b := EncodeLeaf(e.kind, n, m[here]).value;
    var rest := input[|p.blob| + |b|..];
    assert input[u.off..] == b + rest;
    LeafRoundTrip(e.kind, n, m[here], rest);
    u' := Unpacking(u.rec[here := m[here]], u.off + |b|);
  }

  lemma ContextSide(root: Node, loc: Loc, i: nat, j: nat, j': nat, keys: set<Loc>)
    requires ValidNode(root, PathOf(loc)) && Context(root, At(loc, i, j), keys)
    ensures Context(root, At(loc, i, j'), keys)
  {
  }

  lemma ContextCovers(root: Node, up: Loc, n: nat, keys: set<Loc>)
    requires ValidNode(root, PathOf(up)) && n <= |NodeAt(root, PathOf(up)).elems| && Context(root, At(up, n, 0), keys)
    ensures forall k :: 0 <= k < n ==> Covered(NodeAt(root, PathOf(up)).elems[k], up, k, keys)
  {
    hide Covered;
  }

  lemma ContextDown(root: Node, loc: Loc, i: nat, j: nat, keys: set<Loc>)
    requires ValidNode(root, Step(PathOf(loc), i)) && Context(root, At(loc, i, j), keys)
    ensures Context(root, At(At(loc, i, j), 0, 0), keys)
  {
  }

  lemma {:induction false} FollowRepeat(root: Node, m: Record, input: seq<byte>, e: Elem, i: nat, loc: Loc, j: nat, limit: int, p: Packing, u: Unpacking)
    returns (u': Unpacking)
    requires ValidNode(root, Step(PathOf(loc), i)) && NodeAt(root, Step(PathOf(loc), i)) == e.ref
    requires DefsSettled(root, e.ref, Step(PathOf(loc), i))
    requires Context(root, At(loc, i, j), p.seen) && Agrees(m, p, u)
    requires
      var o := RunRepeat(PackVisitor(root, m), e, loc, i, j, limit, p);
      o.Done? && o.s.blob <= input
    ensures
      var o := RunRepeat(PackVisitor(root, m), e, loc, i, j, limit, p);
      && RunRepeat(UnpackVisitor(root, input), e, loc, i, j, limit, u) == Done(u', o.steps)
      && Agrees(m, o.s, u')
      && forall k :: 0 <= k < |e.ref.elems| ==> Covered(e.ref.elems[k], At(loc, i, j), k, o.s.seen)
    decreases e, 0, limit - j
  {
    hide RunElems, RunElem, RunRepeat, Context, Agrees;
    PackRepeatStep(root, m, All, e, loc, i, j, limit, p);
    UnpackRepeatStep(root, input, e, loc, i, j, limit, u);
    var body := RunElems(PackVisitor(root, m), e.ref, 0, At(loc, i, j), p);
    var o := RunRepeat(PackVisitor(root, m), e, loc, i, j, limit, p);
    if j + 1 < limit { PackGrowsRepeat(root, m, e, loc, i, j + 1, limit, body.s); }
    PackGrowsElems(root, m, e.ref, 0, At(loc, i, j), p);
    ContextDown(root, loc, i, j, p.seen);
    u' := FollowElems(root, m, input, e.ref, 0, At(loc, i, j), p, u);
    ContextCovers(root, At(loc, i, j), |e.ref.elems|, body.s.seen);
    if j + 1 < limit {
      ContextGrows(root, At(loc, i, j), p.seen, body.s.seen);
      ContextSide(root, loc, i, j, j + 1, body.s.seen);
      u' := FollowRepeat(root, m, input, e, i, loc, j + 1, limit, body.s, u');
    }
    forall k | 0 <= k < |e.ref.elems| ensures Covered(e.ref.elems[k], At(loc, i, j), k, o.s.seen) {
      CoveredGrows(e.ref.elems[k], At(loc, i, j), k, body.s.seen, o.s.seen);
    }
  }

  // ------------------------------------------------------------------------
  // Main results

  /** Unpacking undoes packing, whatever follows the blob, and reads exactly what
      packing wrote: every leaf instance that was packed comes back with its
      value, and no other. */
  lemma UnpackPacked(root: Node, m: Record, rest: seq<byte>)
    requires DefsSettled(root, root, Root)
    requires Pack(root, m).Ok?
    ensures
      var p := Pack(root, m).value;
      var r := Unpack(root, p.blob + rest);
      && r.Ok? && r.value.off == |p.blob|
      && r.value.rec.Keys == p.seen
      && (forall k :: k in r.value.rec ==> k in m && r.value.rec[k] == m[k])
      && (p.seen == m.Keys ==> r.value.rec == m)
  {
    var p := Pack(root, m).value;
    assert p.blob <= p.blob + rest;
    var u := FollowElems(root, m, p.blob + rest, root, 0, Top, Packing([], {}), Unpacking(map[], 0));
  }

  /** A record that has a value for each of its leaves, and for nothing else, comes back from
      its blob, whatever follows it. */
  lemma RoundTrip(root: Node, m: Record, rest: seq<byte>)
    requires DefsSettled(root, root, Root) && Whole(root, m) && Pack(root, m).Ok?
    ensures Unpack(root, Pack(root, m).value.blob + rest) == Ok(Unpacking(m, |Pack(root, m).value.blob|))
  {
    hide DefsSettled, Whole, Pack, Unpack;
    WholeSeen(root, m);
    UnpackPacked(root, m, rest);
  }

  /** No packed blob is a proper prefix of another, and equal blobs come from
      equal records. */
  lemma PackInjective(root: Node, m1: Record, m2: Record, rest1: seq<byte>, rest2: seq<byte>)
    requires DefsSettled(root, root, Root)
    requires Whole(root, m1) && Pack(root, m1).Ok? && Whole(root, m2) && Pack(root, m2).Ok?
    requires Pack(root, m1).value.blob + rest1 == Pack(root, m2).value.blob + rest2
    ensures m1 == m2 && rest1 == rest2
  {
    var b1, b2 := Pack(root, m1).value.blob, Pack(root, m2).value.blob;
    RoundTrip(root, m1, rest1);
    RoundTrip(root, m2, rest2);
    assert rest1 == (b1 + rest1)[|b1|..] && rest2 == (b2 + rest2)[|b2|..];
  }

  // ------------------------------------------------------------------------
  // The operations on a shared template

  datatype Job = PackJob(m: Record) | PartJob(m: Record, flag: bv32) | UnpackJob(blob: seq<byte>)

  datatype Product = Packed(p: Packing) | Unpacked(u: Unpacking)

  /** What a job yields on its own. */
  function Product1(root: Node, job: Job): Result<Product> {
    match job
    case PackJob(m) =>
      (match Pack(root, m)
       case Ok(p) => Ok(Packed(p))
       case Err(c) => Err(c))
    case PartJob(m, flag) =>
      (match PackPart(root, m, Sharing(flag))
       case Ok(p) => Ok(Packed(p))
       case Err(c) => Err(c))
    case UnpackJob(blob) =>
      (match Unpack(root, blob)
       case Ok(u) => Ok(Unpacked(u))
       case Err(c) => Err(c))
  }

  /** The blob is the bytes of exactly the selected leaves of the record, in their order. */
  ghost predicate Packs(root: Node, m: Record, sel: Selection, p: Packing) {
    && Order(root, m, sel, root, 0, Top).Some?
    && BytesOf(root, m, Order(root, m, sel, root, 0, Top).value) == Some(p.blob)
    && Ascending(Order(root, m, sel, root, 0, Top).value)
    && (forall loc :: loc in Order(root, m, sel, root, 0, Top).value <==> LeafOf(root, m, loc) && Chosen(root, sel, loc))
  }

  lemma PackPacks(root: Node, m: Record, sel: Selection)
    requires PackPart(root, m, sel).Ok?
    ensures Packs(root, m, sel, PackPart(root, m, sel).value)
  {
    hide Chosen, Ascending, Order, BytesOf, PackPart;
    PackExact(root, m, sel);
    forall loc
      ensures loc in Order(root, m, sel, root, 0, Top).value <==> LeafOf(root, m, loc) && Chosen(root, sel, loc)
    {
      PackTakes(root, m, sel, loc);
    }
  }

  /** One walk of `struct_2_blob`, `struct_2_part_blob` or `blob_2_struct`. */
  method Perform(t: Template, job: Job) returns (r: Result<Product>)
    requires t.AtRest()
    modifies t`tempVar, t`index, t`limit
    ensures r == Product1(t.root, job)
    ensures r.Ok? ==> t.AtRest()
    ensures r.Ok? && job.PackJob? ==> r.value.Packed? && Packs(t.root, job.m, All, r.value.p)
    ensures r.Ok? && job.PartJob? ==> r.value.Packed? && Packs(t.root, job.m, Sharing(job.flag), r.value.p)
  {
    hide Packs;
    match job
    case PackJob(m) =>
      var w := t.Convert(PackVisitor(t.root, m), Packing([], {}));
      if w.Ok? { PackPacks(t.root, m, All); }
      r := if w.Ok? then Ok(Packed(w.value)) else Err(w.code);
    case PartJob(m, flag) =>
      var w := t.Convert(Selecting(t.root, m, Sharing(flag)), Packing([], {}));
      if w.Ok? { PackPacks(t.root, m, Sharing(flag)); }
      r := if w.Ok? then Ok(Packed(w.value)) else Err(w.code);
    case UnpackJob(blob) =>
      var w := t.Convert(UnpackVisitor(t.root, blob), Unpacking(map[], 0));
      r := if w.Ok? then Ok(Unpacked(w.value)) else Err(w.code);
  }

  /** Any sequence of walks on one template, as long as they succeed: each yields
      what it would yield on a fresh template. */
  method PerformAll(t: Template, jobs: seq<Job>) returns (out: seq<Product>, ok: bool)
    requires t.AtRest()
    modifies t`tempVar, t`index, t`limit
    ensures |out| <= |jobs| && (ok <==> |out| == |jobs|)
    ensures forall k :: 0 <= k < |out| ==> Product1(t.root, jobs[k]) == Ok(out[k])
    ensures !ok ==> Product1(t.root, jobs[|out|]).Err?
    ensures ok ==> t.AtRest()
  {
    hide Product1, Packs;
    out := [];
    while |out| < |jobs|
      invariant |out| <= |jobs| && t.AtRest()
      invariant forall k :: 0 <= k < |out| ==> Product1(t.root, jobs[k]) == Ok(out[k])
      decreases |jobs| - |out|
    {
      var r := Perform(t, jobs[|out|]);
      if r.Err? { return out, false; }
      out := out + [r.value];
    }
    ok := true;
  }

  /** Pack a record and unpack the blob on the same template. */
  method PackThenUnpack(t: Template, m: Record, rest: seq<byte>) returns (r: Result<Unpacking>)
    requires t.AtRest() && DefsSettled(t.root, t.root, Root) && Whole(t.root, m)
    modifies t`tempVar, t`index, t`limit
    ensures r.Ok? <==> Pack(t.root, m).Ok?
    ensures r.Ok? ==> t.AtRest()
    ensures r.Ok? ==> r.value == Unpacking(m, |Pack(t.root, m).value.blob|)
  {
    var p := t.Convert(PackVisitor(t.root, m), Packing([], {}));
    if p.Err? { return Err(p.code); }
    RoundTrip(t.root, m, rest);
    r := t.Convert(UnpackVisitor(t.root, p.value.blob + rest), Unpacking(map[], 0));
  }
}
