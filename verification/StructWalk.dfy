/** The template tree of struct_mod and the stackless walker `_convert_frame_func`.

    A template node is named by its path from the root, which stands for its
    address: templates are trees, so every node has exactly one path, `parent`
    is the path one step up, and the node under element `i` is one step down.
    The fields that a walk changes (`temp_var` of nodes, `index` and `limit` of
    elements) are kept in the class `Template`; the rest of a template is
    immutable. */
module StructWalk {
  import opened Base
  datatype Path = Root | Step(up: Path, i: nat)

  /** An instance of a node or element: on every step down, the element index and
      which repetition of that element. */
  datatype Loc = Top | At(up: Loc, i: nat, j: nat)

  /** The element types, grouped as the attribute table groups them. */
  datatype Kind =
    | Scalar(width: nat)       // INT, UCHAR, USHORT, LONGLONG
    | Tpm16                    // TPM_TYPE_UINT16, big endian in the blob
    | Bytes(size: nat)         // STRING, BINDATA, HEXDATA, UUID, ENUMs and FLAGs
    | EString                  // ESTRING, ended by a zero byte
    | Define                   // DEFINE and DEFSTR: as many bytes as the length element says
    | DefStrArray(unit: nat)   // DEFSTRARRAY
    | DefUuidArray             // DEFUUIDARRAY
    | DefNameList              // DEFNAMELIST
    | SubStruct(count: nat)    // SUBSTRUCT, stored in place
    | FixArray(count: nat)     // ARRAY, stored behind a pointer
    | DefArray                 // DEFARRAY, repeated as the length element says
  {
    predicate IsSubset() { SubStruct? || FixArray? || DefArray? }

    predicate IsArray() { FixArray? || DefArray? || DefStrArray? || DefUuidArray? || DefNameList? }

    predicate IsDefine() { Define? || DefStrArray? || DefUuidArray? || DefNameList? || DefArray? }
  }

  datatype Node = Node(elems: seq<Elem>)

  /** `def` is the path of the length element of a define element; `flag` is what
      the partial walks select on; `ref` is the node below a subset element. */
  datatype Elem = Elem(kind: Kind, flag: bv32, def: Path, ref: Node)

  /** The callbacks of one walk over a client state `S`.  Entering a repetition of a
      subset element calls `enter`, which sets the number of repetitions, while the
      element's `limit` is zero, and `again` with the limit at every further
      repetition; `exit` follows each repetition and may end them at once.  Each gets
      the element with its instance, and where it may need it the instance of its
      length element or the limit. */
  datatype Visitor<!S> = Visitor(
    test: Elem -> bool,
    enter: (S, Elem, Loc, Loc) -> Result<(S, int)>,
    again: (S, Elem, Loc, int) -> Result<S>,
    exit: (S, Elem, Loc, int) -> Result<(S, bool)>,
    proc: (S, Elem, Loc, Loc) -> Result<S>)
  {
    predicate Test(e: Elem) { test(e) }

    function Enter(s: S, e: Elem, at: Loc, def: Loc): Result<(S, int)> { enter(s, e, at, def) }

    function Again(s: S, e: Elem, at: Loc, limit: int): Result<S> { again(s, e, at, limit) }

    function Exit(s: S, e: Elem, at: Loc, limit: int): Result<(S, bool)> { exit(s, e, at, limit) }

    function Proc(s: S, e: Elem, at: Loc, def: Loc): Result<S> { proc(s, e, at, def) }
  }

  // ------------------------------------------------------------------------
  // Paths and instances

  /** The path leads through subset elements to a node. */
  predicate ValidNode(root: Node, p: Path)
    decreases p, 0
  {
    p.Root? ||
    (ValidNode(root, p.up) && p.i < |NodeAt(root, p.up).elems| && NodeAt(root, p.up).elems[p.i].kind.IsSubset())
  }

  function NodeAt(root: Node, p: Path): Node
    requires ValidNode(root, p)
    decreases p, 1
  {
    if p.Root? then root else NodeAt(root, p.up).elems[p.i].ref
  }

  predicate ValidElem(root: Node, p: Path) {
    p.Step? && ValidNode(root, p.up) && p.i < |NodeAt(root, p.up).elems|
  }

  function ElemAt(root: Node, p: Path): Elem
    requires ValidElem(root, p)
  {
    NodeAt(root, p.up).elems[p.i]
  }

  /** Every element on the way to the node passes the test of the walk. */
  ghost predicate Selected(t: Elem -> bool, root: Node, p: Path)
    requires ValidNode(root, p)
  {
    p.Root? || (Selected(t, root, p.up) && t(NodeAt(root, p.up).elems[p.i]))
  }

  function PathOf(loc: Loc): Path {
    if loc.Top? then Root else Step(PathOf(loc.up), loc.i)
  }

  /** Which repetition of the element at `d` a walk standing at `loc` is in: that
      of the way to `loc` if `d` is on it, and the first one otherwise. */
  function RepOf(d: Path, loc: Loc): nat {
    if loc.Top? then 0
    else if PathOf(loc) == d then loc.j
    else RepOf(d, loc.up)
  }

  /** The instance of the element at `d` while the walk stands at `loc`. */
  function DefLoc(d: Path, loc: Loc): Loc {
    if d.Root? then Top else At(DefLoc(d.up, loc), d.i, RepOf(d, loc))
  }

  // ------------------------------------------------------------------------
  // The walk as a recursion

  /** How a walk ends, with the number of loop iterations it takes. */
  datatype Outcome<S> = Done(s: S, steps: nat) | Fail(code: int, steps: nat)
  {
    function Plus(n: nat): Outcome<S> { this.(steps := steps + n) }

    function Res(): Result<S> {
      match this
      case Done(s, _) => Ok(s)
      case Fail(code, _) => Err(code)
    }
  }

  /** Elements `i` and on of a node that stands at instance `loc`. */
  function RunElems<S>(v: Visitor<S>, node: Node, i: nat, loc: Loc, s: S): Outcome<S>
    requires i <= |node.elems|
    decreases node, |node.elems| - i, 0
  {
    if i == |node.elems| then Done(s, 0)
    else
      match RunElem(v, node.elems[i], loc, i, s)
      case Fail(c, n) => Fail(c, n)
      case Done(s', n) => RunElems(v, node, i + 1, loc, s').Plus(n)
  }

  function RunElem<S>(v: Visitor<S>, e: Elem, loc: Loc, i: nat, s: S): Outcome<S>
    decreases e, 1, 0
  {
    var here := At(loc, i, 0);
    if !v.Test(e) then Done(s, 1)
    else if !e.kind.IsSubset() then
      match v.Proc(s, e, here, DefLoc(e.def, here))
      case Err(c) => Fail(c, 1)
      case Ok(s') => Done(s', 1)
    else
      match v.Enter(s, e, here, DefLoc(e.def, here))
      case Err(c) => Fail(c, 1)
      case Ok((s', limit)) =>
        if e.kind.IsArray() && limit == 0 then
          match v.Exit(s', e, here, 0)
          case Err(c) => Fail(c, 1)
          case Ok((s'', _)) => Done(s'', 1)
        else RunRepeat(v, e, loc, i, 0, limit, s')
  }

  /** Repetition `j` and the following ones of a subset element. */
  function RunRepeat<S>(v: Visitor<S>, e: Elem, loc: Loc, i: nat, j: nat, limit: int, s: S): Outcome<S>
    decreases e, 0, limit - j, 1
  {
    match RunElems(v, e.ref, 0, At(loc, i, j), s)
    case Fail(c, n) => Fail(c, n + 1)
    case Done(s', n) => AfterBody(v, e, loc, i, j, limit, s').Plus(n + 1)
  }

  /** What follows when repetition `j` has visited the whole node below. */
  function AfterBody<S>(v: Visitor<S>, e: Elem, loc: Loc, i: nat, j: nat, limit: int, s: S): Outcome<S>
    decreases e, 0, limit - j, 0
  {
    match v.Exit(s, e, At(loc, i, j + 1), limit)
    case Err(c) => Fail(c, 1)
    case Ok((s', stop)) =>
      if stop || j + 1 >= limit then Done(s', 1)
      else RunAgain(v, e, loc, i, j + 1, limit, s').Plus(1)
  }

  /** A further repetition is entered. */
  function RunAgain<S>(v: Visitor<S>, e: Elem, loc: Loc, i: nat, j: nat, limit: int, s: S): Outcome<S>
    decreases e, 0, limit - j, 2
  {
    match v.Again(s, e, At(loc, i, j), limit)
    case Err(c) => Fail(c, 1)
    case Ok(s') => RunRepeat(v, e, loc, i, j, limit, s')
  }

  // ------------------------------------------------------------------------
  // What is left to do in the middle of a walk

  /** The open subset elements: index, running repetition and limit of each. */
  datatype Stack = Bottom | Open(below: Stack, i: nat, j: nat, limit: int)
  {
    function Where(): Path { if Bottom? then Root else Step(below.Where(), i) }

    function Loc(): Loc { if Bottom? then Top else At(below.Loc(), i, j) }
  }

  /** The outcome of the whole walk when the node on top of the stack ends in `out`. */
  ghost function Pending<S>(v: Visitor<S>, root: Node, stk: Stack, out: Outcome<S>): Outcome<S>
    requires ValidNode(root, stk.Where())
    decreases stk
  {
    if out.Fail? || stk.Bottom? then out
    else
      var node := NodeAt(root, stk.below.Where());
      Pending(v, root, stk.below,
              Siblings(v, node, stk.i, stk.below.Loc(),
                       AfterBody(v, node.elems[stk.i], stk.below.Loc(), stk.i, stk.j, stk.limit, out.s)).Plus(out.steps))
  }

  /** The elements after `i`, once element `i` ended in `out`. */
  ghost function Siblings<S>(v: Visitor<S>, node: Node, i: nat, loc: Loc, out: Outcome<S>): Outcome<S>
    requires i < |node.elems|
  {
    match out
    case Fail(c, n) => out
    case Done(s, n) => RunElems(v, node, i + 1, loc, s).Plus(n)
  }

  /** The rest of the node on top: element `i` is either untouched (limit zero) or
      between two repetitions. */
  ghost function Rest<S>(v: Visitor<S>, node: Node, i: nat, loc: Loc, j: nat, limit: int, s: S): Outcome<S>
    requires i <= |node.elems|
    requires limit != 0 ==> i < |node.elems|
  {
    if limit == 0 then RunElems(v, node, i, loc, s)
    else Siblings(v, node, i, loc, RunAgain(v, node.elems[i], loc, i, j, limit, s))
  }

  lemma {:induction false} PendingPlus<S>(v: Visitor<S>, root: Node, stk: Stack, out: Outcome<S>, n: nat)
    requires ValidNode(root, stk.Where())
    ensures Pending(v, root, stk, out.Plus(n)) == Pending(v, root, stk, out).Plus(n)
    decreases stk
  {
    if out.Done? && !stk.Bottom? {
      var node := NodeAt(root, stk.below.Where());
      var o := Siblings(v, node, stk.i, stk.below.Loc(),
                        AfterBody(v, node.elems[stk.i], stk.below.Loc(), stk.i, stk.j, stk.limit, out.s));
      assert o.Plus(out.steps + n) == o.Plus(out.steps).Plus(n);
      PendingPlus(v, root, stk.below, o.Plus(out.steps), n);
    }
  }

  /** Entering repetition `j` of element `i`: the walk moves one node down. */
  lemma Descend<S>(v: Visitor<S>, root: Node, stk: Stack, i: nat, j: nat, limit: int, s: S)
    requires ValidNode(root, stk.Where())
    requires i < |NodeAt(root, stk.Where()).elems|
    requires NodeAt(root, stk.Where()).elems[i].kind.IsSubset()
    ensures
      var e := NodeAt(root, stk.Where()).elems[i];
      var stk' := Open(stk, i, j, limit);
      Pending(v, root, stk, Siblings(v, NodeAt(root, stk.Where()), i, stk.Loc(), RunRepeat(v, e, stk.Loc(), i, j, limit, s)))
      == Pending(v, root, stk', RunElems(v, e.ref, 0, stk'.Loc(), s)).Plus(1)
  {
    var node := NodeAt(root, stk.Where());
    var e := node.elems[i];
    var body := RunElems(v, e.ref, 0, At(stk.Loc(), i, j), s);
    if body.Done? {
      var o := Siblings(v, node, i, stk.Loc(), AfterBody(v, e, stk.Loc(), i, j, limit, body.s));
      assert Siblings(v, node, i, stk.Loc(), RunRepeat(v, e, stk.Loc(), i, j, limit, s)) == o.Plus(body.steps).Plus(1);
      PendingPlus(v, root, stk, o.Plus(body.steps), 1);
    }
  }

  /** Leaving the node on top: back to the element above, which either is done or
      goes on with its next repetition. */
  lemma Ascend<S>(v: Visitor<S>, root: Node, stk: Stack, s: S)
    requires stk.Open? && ValidNode(root, stk.Where())
    ensures
      var node := NodeAt(root, stk.below.Where());
      match v.Exit(s, node.elems[stk.i], At(stk.below.Loc(), stk.i, stk.j + 1), stk.limit)
      case Err(c) => Pending(v, root, stk, Done(s, 0)) == Fail(c, 1)
      case Ok((s', stop)) =>
        Pending(v, root, stk, Done(s, 0)) ==
        Pending(v, root, stk.below,
                if stop || stk.j + 1 >= stk.limit then RunElems(v, node, stk.i + 1, stk.below.Loc(), s')
                else Rest(v, node, stk.i, stk.below.Loc(), stk.j + 1, stk.limit, s')).Plus(1)
  {
    var node := NodeAt(root, stk.below.Where());
    var e := node.elems[stk.i];
    match v.Exit(s, e, At(stk.below.Loc(), stk.i, stk.j + 1), stk.limit)
    case Err(c) =>
    case Ok((s', stop)) =>
      var o := if stop || stk.j + 1 >= stk.limit then RunElems(v, node, stk.i + 1, stk.below.Loc(), s')
               else Rest(v, node, stk.i, stk.below.Loc(), stk.j + 1, stk.limit, s');
      assert Siblings(v, node, stk.i, stk.below.Loc(), AfterBody(v, e, stk.below.Loc(), stk.i, stk.j, stk.limit, s)) == o.Plus(1);
      PendingPlus(v, root, stk.below, o, 1);
  }

  // ------------------------------------------------------------------------
  // The fields of the shared template; a field never written is still zero

  function Get(m: map<Path, nat>, p: Path): nat { if p in m then m[p] else 0 }

  function Lim(m: map<Path, int>, p: Path): int { if p in m then m[p] else 0 }

  lemma Overwrite<V>(m: map<Path, V>, p: Path, a: V, b: V)
    ensures m[p := a][p := b] == m[p := b]
  {
  }

  /** The instance an element has now, read off the `index` fields of the
      elements above it as `_elem_get_addr` does. */
  function Instance(index: map<Path, nat>, p: Path): Loc {
    if p.Root? then Top else At(Instance(index, p.up), p.i, Get(index, p))
  }

  lemma {:induction false} PathOfInstance(index: map<Path, nat>, p: Path)
    ensures PathOf(Instance(index, p)) == p
  {
    if p.Step? { PathOfInstance(index, p.up); }
  }

  ghost function LocDepth(l: Loc): nat { if l.Top? then 0 else LocDepth(l.up) + 1 }

  /** `q` is the node `curr` or above it. */
  ghost predicate OnPath(q: Path, curr: Path) {
    q == curr || (curr.Step? && OnPath(q, curr.up))
  }

  ghost function Depth(p: Path): nat { if p.Root? then 0 else Depth(p.up) + 1 }

  lemma {:induction false} OnPathDepth(q: Path, p: Path)
    ensures OnPath(q, p) && q != p ==> Depth(q) < Depth(p)
    ensures OnPath(Root, p)
  {
    if p.Step? { OnPathDepth(q, p.up); }
  }

  datatype Fields = Fields(tempVar: map<Path, nat>, index: map<Path, nat>, limit: map<Path, int>)
  {
    ghost predicate AtRest() { forall q :: Idle(q) }

    ghost predicate Idle(q: Path) { Get(index, q) == 0 && Lim(limit, q) == 0 }

    /** The element a node is at. */
    function Next(curr: Path): Path { Step(curr, Get(tempVar, curr)) }

    /** Every open element has the counters of the stack. */
    ghost predicate Opened(stk: Stack) {
      stk.Bottom? ||
      (&& Opened(stk.below)
       && Next(stk.below.Where()) == stk.Where()
       && Get(index, stk.Where()) == stk.j && Lim(limit, stk.Where()) == stk.limit)
    }

    /** Elements that are not open are idle, except the one the node is at. */
    ghost predicate IdleElsewhere(curr: Path) {
      Idle(Root) && forall q :: !OnPath(q, curr) && q != Next(curr) ==> Idle(q)
    }

    /** The element the node is at is untouched or between two repetitions. */
    ghost predicate Between(t: Elem -> bool, node: Node, next: Path)
      requires next.Step?
    {
      && next.i <= |node.elems|
      && (Lim(limit, next) == 0 ==> Get(index, next) == 0)
      && (Lim(limit, next) != 0 ==> next.i < |node.elems| && node.elems[next.i].kind.IsSubset() && t(node.elems[next.i]))
    }

    /** The fields agree with the open elements `stk`. */
    ghost predicate Follows(t: Elem -> bool, root: Node, stk: Stack) {
      && ValidNode(root, stk.Where()) && Selected(t, root, stk.Where())
      && Opened(stk)
      && IdleElsewhere(stk.Where())
      && Between(t, NodeAt(root, stk.Where()), Next(stk.Where()))
    }

    /** The outcome of the walk from here on. */
    ghost function Remaining<S>(v: Visitor<S>, root: Node, stk: Stack, s: S): Outcome<S>
      requires Follows(v.test, root, stk)
    {
      var next := Next(stk.Where());
      Pending(v, root, stk, Rest(v, NodeAt(root, stk.Where()), next.i, stk.Loc(), Get(index, next), Lim(limit, next), s))
    }

    /** The outcome seen one step before this state, if the fields agree with `stk`. */
    ghost function Before<S>(v: Visitor<S>, root: Node, stk: Stack, s: S): Result<Outcome<S>> {
      if Follows(v.test, root, stk) then Ok(Remaining(v, root, stk, s).Plus(1)) else Err(0)
    }

    lemma {:induction false} InstanceOpened(stk: Stack)
      requires Opened(stk)
      ensures Instance(index, stk.Where()) == stk.Loc()
    {
      if stk.Open? { InstanceOpened(stk.below); }
    }

    /** Writing the counter of `q` changes no instance above it. */
    lemma {:induction false} InstanceOther(q: Path, j: nat, p: Path)
      requires j == Get(index, q) || Depth(p) < Depth(q)
      ensures Instance(index[q := j], p) == Instance(index, p)
    {
      if p.Step? { InstanceOther(q, j, p.up); }
    }

    /** On the way down an element's counter is its repetition. */
    lemma {:induction false} RepOnPath(d: Path, p: Path)
      ensures RepOf(d, Instance(index, p)) == if OnPath(d, p) && d.Step? then Get(index, d) else 0
    {
      PathOfInstance(index, p);
      if p.Step? && d != p { RepOnPath(d, p.up); }
    }

    /** Instances read off the tree are the instances of the recursion. */
    lemma {:induction false} InstanceFollows(t: Elem -> bool, root: Node, stk: Stack, d: Path)
      requires Follows(t, root, stk)
      ensures Instance(index, d) == DefLoc(d, Instance(index, Next(stk.Where())))
    {
      if d.Step? {
        InstanceFollows(t, root, stk, d.up);
        RepOnPath(d, Next(stk.Where()));
        assert !OnPath(d, Next(stk.Where())) ==> Idle(d);
      }
    }

    /** The instances that the callbacks of an untouched element get. */
    lemma Instances(t: Elem -> bool, root: Node, stk: Stack, d: Path)
      requires Follows(t, root, stk) && Lim(limit, Next(stk.Where())) == 0
      ensures
        var next := Next(stk.Where());
        var here := At(stk.Loc(), next.i, 0);
        && Instance(index, next) == here && Instance(index[next := 0], next) == here
        && Instance(index, d) == DefLoc(d, here)
    {
      InstanceFollows(t, root, stk, d);
      InstanceOpened(stk);
      InstanceOther(Next(stk.Where()), 0, Next(stk.Where()));
    }

    lemma {:induction false} OpenedSame(stk: Stack, f: Fields)
      requires Opened(stk)
      requires forall q :: OnPath(q, stk.Where()) && q != stk.Where() ==> Get(f.tempVar, q) == Get(tempVar, q)
      requires forall q :: OnPath(q, stk.Where()) ==> Get(f.index, q) == Get(index, q) && Lim(f.limit, q) == Lim(limit, q)
      ensures f.Opened(stk)
    {
      if stk.Open? {
        forall q | OnPath(q, stk.below.Where()) ensures q != stk.Where() {
          OnPathDepth(q, stk.below.Where());
        }
        assert OnPath(stk.below.Where(), stk.Where());
        OpenedSame(stk.below, f);
      }
    }

    /** On to the next element of the node. */
    lemma Over(t: Elem -> bool, root: Node, stk: Stack) returns (f: Fields)
      requires Follows(t, root, stk)
      requires Next(stk.Where()).i < |NodeAt(root, stk.Where()).elems|
      ensures
        var next := Next(stk.Where());
        f == Fields(tempVar[stk.Where() := next.i + 1], index[next := 0], limit[next := 0])
      ensures f.Follows(t, root, stk)
      ensures f.Idle(f.Next(stk.Where()))
    {
      var curr := stk.Where();
      var next := Next(curr);
      f := Fields(tempVar[curr := next.i + 1], index[next := 0], limit[next := 0]);
      forall q | OnPath(q, curr) ensures q != next && q != f.Next(curr) { OnPathDepth(q, curr); }
      OpenedSame(stk, f);
      forall q | !OnPath(q, curr) ensures f.Idle(q) { assert q == next || Idle(q); }
      assert Idle(Root) && f.Idle(Root);
      assert !OnPath(f.Next(curr), curr) && f.Idle(f.Next(curr));
    }

    /** Down into the node under the current element, which has limit `n`. */
    lemma Down(t: Elem -> bool, root: Node, stk: Stack, n: int) returns (f: Fields)
      requires Follows(t, root, stk)
      requires
        var next := Next(stk.Where());
        var node := NodeAt(root, stk.Where());
        next.i < |node.elems| && node.elems[next.i].kind.IsSubset() && t(node.elems[next.i])
      ensures
        var next := Next(stk.Where());
        && f == Fields(tempVar[next := 0], index, limit[next := n])
        && f.Follows(t, root, Open(stk, next.i, Get(index, next), n))
        && f.Idle(f.Next(next))
    {
      var curr := stk.Where();
      var next := Next(curr);
      f := Fields(tempVar[next := 0], index, limit[next := n]);
      forall q | OnPath(q, curr) ensures q != next { OnPathDepth(q, curr); }
      OpenedSame(stk, f);
      forall q | !OnPath(q, next) ensures f.Idle(q) {
        assert Idle(q);
      }
      assert Idle(Root) && f.Idle(Root);
      OnPathDepth(f.Next(next), next);
      assert !OnPath(f.Next(next), next) && f.Idle(f.Next(next));
    }

    /** Up to the element above, which gets new counters. */
    lemma Up(t: Elem -> bool, root: Node, stk: Stack, j: nat, n: int) returns (f: Fields)
      requires Follows(t, root, stk) && stk.Open? && n != 0
      requires Next(stk.Where()).i == |NodeAt(root, stk.Where()).elems|
      ensures f == Fields(tempVar, index[stk.Where() := j], limit[stk.Where() := n])
      ensures f.Follows(t, root, stk.below)
    {
      var up := stk.Where();
      f := Fields(tempVar, index[up := j], limit[up := n]);
      forall q | OnPath(q, up.up) ensures q != up { OnPathDepth(q, up.up); }
      OpenedSame(stk.below, f);
      assert Idle(Next(up));
      forall q | !OnPath(q, up.up) && q != up ensures f.Idle(q) {
        assert !OnPath(q, up) && Idle(q);
      }
      assert Idle(Root) && f.Idle(Root);
    }

    /** Writing a zero into a field that is zero changes nothing that is read. */
    lemma Same<S>(v: Visitor<S>, f: Fields, root: Node, stk: Stack, s: S)
      requires f.Follows(v.test, root, stk)
      requires f.tempVar == tempVar
      requires forall q :: Get(index, q) == Get(f.index, q)
      requires forall q :: Lim(limit, q) == Lim(f.limit, q)
      ensures Follows(v.test, root, stk)
      ensures Remaining(v, root, stk, s) == f.Remaining(v, root, stk, s)
    {
      f.OpenedSame(stk, this);
      forall q ensures Idle(q) == f.Idle(q) {}
    }

    // Each move of the walker keeps the outcome and takes one step.

    /** The walk is at an untouched element, which ends in `out`. */
    ghost predicate AtElem<S>(v: Visitor<S>, root: Node, stk: Stack, s: S, out: Outcome<S>) {
      && Follows(v.test, root, stk)
      && var next := Next(stk.Where());
      && next.i < |NodeAt(root, stk.Where()).elems| && Lim(limit, next) == 0
      && RunElem(v, NodeAt(root, stk.Where()).elems[next.i], stk.Loc(), next.i, s) == out
    }

    /** The current element is finished in one step with state `s'`. */
    lemma MoveOver<S>(v: Visitor<S>, root: Node, stk: Stack, s: S, s': S) returns (f: Fields)
      requires AtElem(v, root, stk, s, Done(s', 1))
      ensures
        var next := Next(stk.Where());
        f == Fields(tempVar[stk.Where() := next.i + 1], index[next := 0], limit[next := 0])
      ensures f.Before(v, root, stk, s') == Ok(Remaining(v, root, stk, s))
    {
      f := Over(v.test, root, stk);
      PendingPlus(v, root, stk, RunElems(v, NodeAt(root, stk.Where()), Next(stk.Where()).i + 1, stk.Loc(), s'), 1);
    }

    /** The same, for an element whose counters were never touched. */
    lemma MoveSkip<S>(v: Visitor<S>, root: Node, stk: Stack, s: S, s': S) returns (f: Fields)
      requires AtElem(v, root, stk, s, Done(s', 1))
      ensures f == Fields(tempVar[stk.Where() := Next(stk.Where()).i + 1], index, limit)
      ensures f.Before(v, root, stk, s') == Ok(Remaining(v, root, stk, s))
    {
      var g := MoveOver(v, root, stk, s, s');
      f := Fields(g.tempVar, index, limit);
      f.Same(v, g, root, stk, s');
    }

    /** A callback of the current element fails. */
    lemma MoveFail<S>(v: Visitor<S>, root: Node, stk: Stack, s: S, c: int)
      requires AtElem(v, root, stk, s, Fail(c, 1))
      ensures Remaining(v, root, stk, s) == Fail(c, 1)
    {
    }

    /** The current element is an untouched subset element, and entering it gives `r`. */
    ghost predicate Entered<S>(v: Visitor<S>, root: Node, stk: Stack, s: S, r: Result<(S, int)>) {
      && Follows(v.test, root, stk)
      && var next := Next(stk.Where());
      && next.i < |NodeAt(root, stk.Where()).elems| && Lim(limit, next) == 0
      && var e := NodeAt(root, stk.Where()).elems[next.i];
      && e.kind.IsSubset() && v.Test(e)
      && v.Enter(s, e, At(stk.Loc(), next.i, 0), DefLoc(e.def, At(stk.Loc(), next.i, 0))) == r
    }

    lemma MoveEnterFail<S>(v: Visitor<S>, root: Node, stk: Stack, s: S, c: int)
      requires Entered(v, root, stk, s, Err(c))
      ensures Remaining(v, root, stk, s) == Fail(c, 1)
    {
      assert RunElem(v, NodeAt(root, stk.Where()).elems[Next(stk.Where()).i], stk.Loc(), Next(stk.Where()).i, s) == Fail(c, 1);
    }

    /** An empty array is left at once, by its exit callback. */
    lemma MovePass<S>(v: Visitor<S>, root: Node, stk: Stack, s: S, s1: S, r: Result<(S, bool)>)
      requires Entered(v, root, stk, s, Ok((s1, 0)))
      requires var next := Next(stk.Where());
        var e := NodeAt(root, stk.Where()).elems[next.i];
        e.kind.IsArray() && v.Exit(s1, e, At(stk.Loc(), next.i, 0), 0) == r
      ensures AtElem(v, root, stk, s, if r.Err? then Fail(r.code, 1) else Done(r.value.0, 1))
    {
      hide RunElems, RunRepeat;
    }

    /** Down into the first repetition of the current element, which has `n` of them. */
    lemma MoveEnter<S>(v: Visitor<S>, root: Node, stk: Stack, s: S, s': S, n: int) returns (f: Fields, stk': Stack)
      requires Entered(v, root, stk, s, Ok((s', n)))
      requires !(NodeAt(root, stk.Where()).elems[Next(stk.Where()).i].kind.IsArray() && n == 0)
      ensures
        var next := Next(stk.Where());
        && f == Fields(tempVar[next := 0], index[next := 0], limit[next := n])
        && stk'.Where() == next
        && f.Before(v, root, stk', s') == Ok(Remaining(v, root, stk, s))
    {
      var next := Next(stk.Where());
      var e := NodeAt(root, stk.Where()).elems[next.i];
      assert RunElem(v, e, stk.Loc(), next.i, s) == RunRepeat(v, e, stk.Loc(), next.i, 0, n, s');
      hide RunElem, RunRepeat, RunAgain, AfterBody;
      var g := Down(v.test, root, stk, n);
      stk' := Open(stk, next.i, 0, n);
      Descend(v, root, stk, next.i, 0, n, s');
      f := g.(index := index[next := 0]);
      f.Same(v, g, root, stk', s');
    }

    /** The current element is between two repetitions, and entering the next one gives `r`. */
    ghost predicate AtAgain<S>(v: Visitor<S>, root: Node, stk: Stack, s: S, r: Result<S>) {
      && Follows(v.test, root, stk)
      && var next := Next(stk.Where());
      && Lim(limit, next) != 0
      && v.Again(s, NodeAt(root, stk.Where()).elems[next.i], At(stk.Loc(), next.i, Get(index, next)), Lim(limit, next)) == r
    }

    /** Down into a further repetition of the current element. */
    lemma MoveAgain<S>(v: Visitor<S>, root: Node, stk: Stack, s: S, s': S) returns (f: Fields, stk': Stack)
      requires AtAgain(v, root, stk, s, Ok(s'))
      ensures
        var next := Next(stk.Where());
        && f == Fields(tempVar[next := 0], index, limit)
        && stk'.Where() == next
        && f.Before(v, root, stk', s') == Ok(Remaining(v, root, stk, s))
    {
      var next := Next(stk.Where());
      f := Down(v.test, root, stk, Lim(limit, next));
      assert f.limit == limit;
      stk' := Open(stk, next.i, Get(index, next), Lim(limit, next));
      Descend(v, root, stk, next.i, Get(index, next), Lim(limit, next), s');
    }

    lemma MoveAgainFail<S>(v: Visitor<S>, root: Node, stk: Stack, s: S, c: int)
      requires AtAgain(v, root, stk, s, Err(c))
      ensures Remaining(v, root, stk, s) == Fail(c, 1)
    {
    }

    /** What the exit callback of the element above a finished node gets. */
    lemma ExitInstance(t: Elem -> bool, root: Node, stk: Stack)
      requires Follows(t, root, stk) && stk.Open?
      ensures
        var up := stk.Where();
        && Next(stk.below.Where()) == up && up.i == stk.i && Get(index, up) == stk.j && Lim(limit, up) == stk.limit
        && Instance(index[up := stk.j + 1], up) == At(stk.below.Loc(), stk.i, stk.j + 1)
    {
      InstanceOpened(stk.below);
      InstanceOther(stk.Where(), stk.j + 1, stk.below.Where());
    }

    /** The node on top is finished; its element's exit callback gives `s'` and `stop`. */
    ghost predicate Finished<S>(v: Visitor<S>, root: Node, stk: Stack, s: S, r: Result<(S, bool)>) {
      && Follows(v.test, root, stk) && stk.Open?
      && Next(stk.Where()).i == |NodeAt(root, stk.Where()).elems|
      && v.Exit(s, NodeAt(root, stk.below.Where()).elems[stk.i], At(stk.below.Loc(), stk.i, stk.j + 1), stk.limit) == r
    }

    lemma MoveUpFail<S>(v: Visitor<S>, root: Node, stk: Stack, s: S, c: int)
      requires Finished(v, root, stk, s, Err(c))
      ensures Remaining(v, root, stk, s) == Fail(c, 1)
    {
      Ascend(v, root, stk, s);
    }

    /** Up from a finished node whose element has all its repetitions. */
    lemma MoveUpDone<S>(v: Visitor<S>, root: Node, stk: Stack, s: S, s': S, stop: bool) returns (f: Fields)
      requires Finished(v, root, stk, s, Ok((s', stop)))
      requires stop || stk.j + 1 >= stk.limit
      ensures f == Fields(tempVar[stk.below.Where() := stk.i + 1], index[stk.Where() := 0], limit[stk.Where() := 0])
      ensures f.Before(v, root, stk.below, s') == Ok(Remaining(v, root, stk, s))
    {
      hide RunElem, RunAgain, RunRepeat, AfterBody, Siblings;
      Ascend(v, root, stk, s);
      assert Idle(Next(stk.Where()));
      assert Remaining(v, root, stk, s) == Pending(v, root, stk, Done(s, 0));
      var g := Up(v.test, root, stk, 1, 1);
      f := g.Over(v.test, root, stk.below);
      Overwrite(index, stk.Where(), 1, 0);
      Overwrite(limit, stk.Where(), 1, 0);
    }

    /** Up from a finished node whose element is repeated again. */
    lemma MoveUpAgain<S>(v: Visitor<S>, root: Node, stk: Stack, s: S, s': S) returns (f: Fields)
      requires Finished(v, root, stk, s, Ok((s', false)))
      requires stk.j + 1 < stk.limit
      ensures f == Fields(tempVar, index[stk.Where() := stk.j + 1], limit)
      ensures f.Before(v, root, stk.below, s') == Ok(Remaining(v, root, stk, s))
    {
      Ascend(v, root, stk, s);
      f := Up(v.test, root, stk, stk.j + 1, stk.limit);
      assert limit[stk.Where() := stk.limit] == limit;
    }

    lemma MoveUp<S>(v: Visitor<S>, root: Node, stk: Stack, s: S, s': S, stop: bool) returns (f: Fields)
      requires Finished(v, root, stk, s, Ok((s', stop)))
      ensures f == if stop || stk.j + 1 >= stk.limit
                   then Fields(tempVar[stk.below.Where() := stk.i + 1], index[stk.Where() := 0], limit[stk.Where() := 0])
                   else Fields(tempVar, index[stk.Where() := stk.j + 1], limit)
      ensures f.Before(v, root, stk.below, s') == Ok(Remaining(v, root, stk, s))
    {
      if stop || stk.j + 1 >= stk.limit {
        f := MoveUpDone(v, root, stk, s, s', stop);
      } else {
        f := MoveUpAgain(v, root, stk, s, s');
      }
    }
  }

  // ------------------------------------------------------------------------
  // The shared template

  class Template {
    const root: Node
    var tempVar: map<Path, nat>
    var index: map<Path, nat>
    var limit: map<Path, int>

    /** A freshly allocated template: all counters are zero. */
    constructor (root: Node)
      ensures this.root == root && AtRest()
    {
      this.root := root;
      tempVar, index, limit := map[], map[], map[];
    }

    ghost function State(): Fields reads this { Fields(tempVar, index, limit) }

    /** No element is in the middle of its repetitions. */
    ghost predicate AtRest() reads this { State().AtRest() }

    /** `_convert_frame_func`: visit the whole tree without a stack. */
    method Convert<S>(v: Visitor<S>, s0: S) returns (r: Result<S>)
      requires AtRest()
      modifies this`tempVar, this`index, this`limit
      ensures r == RunElems(v, root, 0, Top, s0).Res()
      ensures r.Ok? ==> AtRest()
    {
      var s := s0;
      var curr := Root;
      tempVar := tempVar[curr := 0];
      ghost var stk := Bottom;
      ghost var f := State();
      forall q ensures f.Idle(q) { assert old(State()).Idle(q); }
      assert f.Idle(f.Next(Root));
      while true
        invariant f == State() && f.Follows(v.test, root, stk) && curr == stk.Where()
        invariant f.Remaining(v, root, stk, s).Res() == RunElems(v, root, 0, Top, s0).Res()
        decreases f.Remaining(v, root, stk, s).steps
      {
        var node := NodeAt(root, curr);
        var i := Get(tempVar, curr);
        if i == |node.elems| {
          if curr == Root {
            assert f.Idle(f.Next(Root));
            return Ok(s);
          }
          r, s, curr, f, stk := Climb(v, s, curr, f, stk);
        } else if v.Test(node.elems[i]) && node.elems[i].kind.IsSubset() {
          if Lim(limit, Step(curr, i)) != 0 {
            r, s, curr, f, stk := Reenter(v, s, curr, f, stk);
          } else {
            r, s, curr, f, stk := Enter(v, s, curr, f, stk);
          }
        } else {
          r, s, f := Process(v, s, curr, f, stk);
        }
        if r.Err? { return; }
      }
    }

    /** The end of a node below the root: back to the element the node stands
        under, which is done or goes on with its next repetition. */
    method Climb<S>(v: Visitor<S>, s: S, curr: Path, ghost f: Fields, ghost stk: Stack)
      returns (r: Result<S>, s': S, curr': Path, ghost g: Fields, ghost stk': Stack)
      requires f == State() && f.Follows(v.test, root, stk) && curr == stk.Where() && curr != Root
      requires Get(tempVar, curr) == |NodeAt(root, curr).elems|
      modifies this`tempVar, this`index, this`limit
      ensures r.Err? ==> f.Remaining(v, root, stk, s).Res() == r
      ensures r.Ok? ==> g == State() && curr' == stk'.Where()
      ensures r.Ok? ==> g.Before(v, root, stk', s') == Ok(f.Remaining(v, root, stk, s))
    {
      hide RunElems, RunElem, RunAgain, RunRepeat, AfterBody, Siblings, Pending, Rest;
      s', curr', g, stk' := s, curr.up, f, stk.below;
      var i := Get(tempVar, curr');
      var e := NodeAt(root, curr').elems[i];
      f.ExitInstance(v.test, root, stk);
      hide Instance;
      index := index[curr := Get(index, curr) + 1];
      var back := v.Exit(s, e, Instance(index, curr), Lim(limit, curr));
      assert f.Finished(v, root, stk, s, back);
      if back.Err? {
        f.MoveUpFail(v, root, stk, s, back.code);
        return Err(back.code), s, curr', f, stk.below;
      }
      var stop := back.value.1;
      s' := back.value.0;
      g := f.MoveUp(v, root, stk, s, s', stop);
      Overwrite(f.index, curr, stk.j + 1, 0);
      if stop || Get(index, curr) >= Lim(limit, curr) {
        tempVar := tempVar[curr' := i + 1];
        limit := limit[curr := 0];
        index := index[curr := 0];
      }
      r := Ok(s');
    }

    /** A subset element that is repeated again: its entry callback is called again. */
    method Reenter<S>(v: Visitor<S>, s: S, curr: Path, ghost f: Fields, ghost stk: Stack)
      returns (r: Result<S>, s': S, curr': Path, ghost g: Fields, ghost stk': Stack)
      requires f == State() && f.Follows(v.test, root, stk) && curr == stk.Where()
      requires Lim(limit, Step(curr, Get(tempVar, curr))) != 0
      modifies this`tempVar
      ensures r.Err? ==> f.Remaining(v, root, stk, s).Res() == r
      ensures r.Ok? ==> g == State() && curr' == stk'.Where()
      ensures r.Ok? ==> g.Before(v, root, stk', s') == Ok(f.Remaining(v, root, stk, s))
    {
      var next := Step(curr, Get(tempVar, curr));
      s', curr', g, stk' := s, next, f, stk;
      var e := NodeAt(root, curr).elems[next.i];
      f.InstanceOpened(stk);
      r := v.Again(s, e, Instance(index, next), Lim(limit, next));
      assert f.AtAgain(v, root, stk, s, r);
      if r.Err? {
        f.MoveAgainFail(v, root, stk, s, r.code);
        return;
      }
      s' := r.value;
      g, stk' := f.MoveAgain(v, root, stk, s, s');
      tempVar := tempVar[curr' := 0];
    }

    /** A subset element that is not open: into its first repetition, or past it
        when it is an empty array. */
    method Enter<S>(v: Visitor<S>, s: S, curr: Path, ghost f: Fields, ghost stk: Stack)
      returns (r: Result<S>, s': S, curr': Path, ghost g: Fields, ghost stk': Stack)
      requires f == State() && f.Follows(v.test, root, stk) && curr == stk.Where()
      requires
        var i := Get(tempVar, curr);
        var elems := NodeAt(root, curr).elems;
        i < |elems| && v.Test(elems[i]) && elems[i].kind.IsSubset() && Lim(limit, Step(curr, i)) == 0
      modifies this`tempVar, this`index, this`limit
      ensures r.Err? ==> f.Remaining(v, root, stk, s).Res() == r
      ensures r.Ok? ==> g == State() && curr' == stk'.Where()
      ensures r.Ok? ==> g.Before(v, root, stk', s') == Ok(f.Remaining(v, root, stk, s))
    {
      hide RunElems, RunElem, RunAgain, RunRepeat, AfterBody, Siblings, Pending, Rest;
      s', curr', g, stk' := s, curr, f, stk;
      var i := Get(tempVar, curr);
      var e := NodeAt(root, curr).elems[i];
      var next := Step(curr, i);
      f.Instances(v.test, root, stk, e.def);
      var entry := v.Enter(s, e, Instance(index, next), Instance(index, e.def));
      assert f.Entered(v, root, stk, s, entry);
      if entry.Err? {
        f.MoveEnterFail(v, root, stk, s, entry.code);
        return Err(entry.code), s, curr, f, stk;
      }
      var s1, n := entry.value.0, entry.value.1;
      if e.kind.IsArray() && n == 0 {
        r, s', g := PassEmpty(v, s, s1, curr, f, stk);
        return;
      }
      g, stk' := f.MoveEnter(v, root, stk, s, s1, n);
      index := index[next := 0];
      limit := limit[next := n];
      curr' := next;
      tempVar := tempVar[curr' := 0];
      r, s' := Ok(s1), s1;
    }

    /** An empty array: only its exit callback is called. */
    method PassEmpty<S>(v: Visitor<S>, s: S, s1: S, curr: Path, ghost f: Fields, ghost stk: Stack)
      returns (r: Result<S>, s': S, ghost g: Fields)
      requires f == State() && curr == stk.Where() && f.Entered(v, root, stk, s, Ok((s1, 0)))
      requires NodeAt(root, curr).elems[Get(tempVar, curr)].kind.IsArray()
      modifies this`tempVar, this`index, this`limit
      ensures r.Err? ==> f.Remaining(v, root, stk, s).Res() == r
      ensures r.Ok? ==> g == State() && g.Before(v, root, stk, s') == Ok(f.Remaining(v, root, stk, s))
    {
      hide RunElems, RunElem, RunAgain, RunRepeat, AfterBody, Siblings, Pending, Rest;
      s', g := s, f;
      var i := Get(tempVar, curr);
      var e := NodeAt(root, curr).elems[i];
      var next := Step(curr, i);
      f.Instances(v.test, root, stk, e.def);
      index := index[next := 0];
      limit := limit[next := 0];
      var exit := v.Exit(s1, e, Instance(index, next), Lim(limit, next));
      f.MovePass(v, root, stk, s, s1, exit);
      if exit.Err? {
        f.MoveFail(v, root, stk, s, exit.code);
        return Err(exit.code), s, f;
      }
      s' := exit.value.0;
      g := f.MoveOver(v, root, stk, s, s');
      tempVar := tempVar[curr := i + 1];
      r := Ok(s');
    }

    /** An element that is not selected is skipped, and a leaf is processed. */
    method Process<S>(v: Visitor<S>, s: S, curr: Path, ghost f: Fields, ghost stk: Stack)
      returns (r: Result<S>, s': S, ghost g: Fields)
      requires f == State() && f.Follows(v.test, root, stk) && curr == stk.Where()
      requires
        var i := Get(tempVar, curr);
        var elems := NodeAt(root, curr).elems;
        i < |elems| && !(v.Test(elems[i]) && elems[i].kind.IsSubset())
      modifies this`tempVar
      ensures r.Err? ==> f.Remaining(v, root, stk, s).Res() == r
      ensures r.Ok? ==> g == State()
      ensures r.Ok? ==> g.Before(v, root, stk, s') == Ok(f.Remaining(v, root, stk, s))
    {
      s' := s;
      var i := Get(tempVar, curr);
      var e := NodeAt(root, curr).elems[i];
      var next := Step(curr, i);
      if v.Test(e) {
        f.Instances(v.test, root, stk, e.def);
        match v.Proc(s, e, Instance(index, next), Instance(index, e.def)) {
          case Err(c) =>
            f.MoveFail(v, root, stk, s, c);
            return Err(c), s', f;
          case Ok(s1) => s' := s1;
        }
      }
      g := f.MoveSkip(v, root, stk, s, s');
      tempVar := tempVar[curr := i + 1];
      r := Ok(s');
    }
  }
}
