/** Routing with nested aspects (route_tree.c). Entering an aspect saves the head of a
    message in a node of a hash forest under a fresh nonce; leaving it finds the node by
    the nonce and restores the head. */
module Route {
  import opened Base
  type flags = bv32

  const DIGEST: nat := 32

  /** A uuid, a nonce, or a name in its 32 byte field. */
  type Uuid = s: seq<byte> | |s| == 32 witness seq(32, _ => 0)

  const ASPECT_FLAG: flags := 0x200

  const FLOW_QUERY: int := 0x08
  const FLOW_DUP: int := 0x20
  const FLOW_ASPECT: int := 0x40
  const STATE_MATCH: int := 0x01
  const STATE_RESPONSE: int := 0x40

  /** The fields of the message head and of the box that routing reads or writes;
      `others` stands for all the rest of the message. */
  datatype Box = Box(
    nonce: Uuid, sender: Uuid, receiver: Uuid, route: Uuid,
    flow: int, state: int, flag: flags, ljump: int, rjump: int,
    policy: int, site: int, others: seq<byte>)

  datatype Path = Path(id: int, flow: int, name: Uuid, start: int)

  datatype Branch = Branch(kind: int, path: Path)

  /** An element of a bucket: what ASPECT_NODE or TRACE_NODE holds. */
  datatype Node =
    | Aspect(uuid: Uuid, outer: Uuid, sender: Uuid, receiver: Uuid, route: Uuid,
             flow: int, state: int, flag: flags, ljump: int, rjump: int, site: int, path: int)
    | Trace(uuid: Uuid, source: Uuid, path: int)

  type Forest = f: seq<seq<Node>> | |f| == 256 witness seq(256, _ => [])

  /** The low byte of the first four bytes, loaded least significant first. */
  function HashIndex(u: Uuid): (i: nat)
    ensures i < 256 && i == u[0]
  {
    var b0: int, b1: int, b2: int, b3: int := u[0], u[1], u[2], u[3];
    (b0 + 0x100 * b1 + 0x1_0000 * b2 + 0x100_0000 * b3) % 256
  }

  // ------------------------------------------------------------------------
  // Strings in fixed fields

  /** Characters in front of the first zero byte, from `k` on. */
  function StrLen(s: Uuid, k: nat): (n: nat)
    requires k <= DIGEST
    ensures k <= n <= DIGEST && (n < DIGEST ==> s[n] == 0)
    ensures forall j :: k <= j < n ==> s[j] != 0
    decreases DIGEST - k
  {
    if k == DIGEST || s[k] == 0 then k else StrLen(s, k + 1)
  }

  /** `Strncpy` between two fields: what lies behind the terminator stays. */
  function StrCopy(dest: Uuid, src: Uuid): (r: Uuid)
    ensures CopiedOver(r, dest, src)
  {
    var n := StrLen(src, 0);
    if n == DIGEST then src else src[..n] + [0] + dest[n + 1..]
  }

  /** `r` has the bytes of `src` up to and with its first zero byte, and those of `dest`
      behind it. */
  predicate CopiedOver(r: Uuid, dest: Uuid, src: Uuid) {
    && (forall k :: 0 <= k < 32 && Reaches(src, k) ==> r[k] == src[k])
    && (forall k :: 0 <= k < 32 && !Reaches(src, k) ==> r[k] == dest[k])
  }

  /** No zero byte comes before byte `k`. */
  predicate Reaches(s: Uuid, k: nat)
    requires k <= 32
  {
    forall j :: 0 <= j < k ==> s[j] != 0
  }

  /** Read as strings, the two fields are the same. */
  predicate ReadsAs(a: Uuid, b: Uuid) {
    forall k :: 0 <= k < 32 && (Reaches(a, k) || Reaches(b, k)) ==> a[k] == b[k]
  }

  lemma ReachesStep(s: Uuid, k: nat)
    requires k < 32
    ensures Reaches(s, k + 1) <==> Reaches(s, k) && s[k] != 0
  {
  }

  lemma {:induction false} ReachesSame(r: Uuid, src: Uuid, k: nat)
    requires k <= 32 && forall i :: 0 <= i < 32 && Reaches(src, i) ==> r[i] == src[i]
    ensures Reaches(r, k) <==> Reaches(src, k)
    decreases k
  {
    if k > 0 {
      ReachesSame(r, src, k - 1);
      ReachesStep(r, k - 1);
      ReachesStep(src, k - 1);
    }
  }

  lemma CopyReads(dest: Uuid, src: Uuid)
    ensures ReadsAs(StrCopy(dest, src), src)
  {
    var r := StrCopy(dest, src);
    hide StrCopy;
    forall k | 0 <= k < 32 && (Reaches(r, k) || Reaches(src, k))
      ensures r[k] == src[k]
    {
      ReachesSame(r, src, k);
    }
  }

  /** A field copied over itself is as it was. */
  lemma CopySelf(s: Uuid)
    ensures StrCopy(s, s) == s
  {
    var r := StrCopy(s, s);
    forall k | 0 <= k < 32
      ensures r[k] == s[k]
    {
      assert Reaches(s, k) || !Reaches(s, k);
    }
  }

  // ------------------------------------------------------------------------
  // The forest

  predicate Matches(n: Node, u: Uuid, aspect: bool) { n.uuid == u && n.Aspect? == aspect }

  /** The first node of the wanted kind with the nonce, in the order of insertion. */
  function FindIn(bucket: seq<Node>, u: Uuid, aspect: bool): Option<Node> {
    if bucket == [] then None
    else if Matches(bucket[0], u, aspect) then Some(bucket[0])
    else FindIn(bucket[1..], u, aspect)
  }

  function Find(f: Forest, u: Uuid, aspect: bool): Option<Node> { FindIn(f[HashIndex(u)], u, aspect) }

  function Added(f: Forest, n: Node): Forest {
    f[HashIndex(n.uuid) := f[HashIndex(n.uuid)] + [n]]
  }

  lemma {:induction false} FindInAppend(bucket: seq<Node>, n: Node, u: Uuid, aspect: bool)
    ensures FindIn(bucket + [n], u, aspect) ==
            if FindIn(bucket, u, aspect).Some? then FindIn(bucket, u, aspect)
            else if Matches(n, u, aspect) then Some(n) else None
  {
    var all := bucket + [n];
    if bucket == [] {
      assert all[1..] == [];
    } else {
      assert all[1..] == bucket[1..] + [n];
      FindInAppend(bucket[1..], n, u, aspect);
    }
  }

  /** A node added to the forest is found if and only if nothing before it matches. */
  lemma FindAdded(f: Forest, n: Node, u: Uuid, aspect: bool)
    ensures Find(Added(f, n), u, aspect) ==
            if Find(f, u, aspect).Some? then Find(f, u, aspect)
            else if Matches(n, u, aspect) then Some(n) else None
  {
    FindInAppend(f[HashIndex(u)], n, u, aspect);
  }

  // ------------------------------------------------------------------------
  // One step on one message

  function NodeOf(b: Box, nonce: Uuid): Node {
    Aspect(nonce, b.nonce, b.sender, b.receiver, b.route, b.flow, b.state, b.flag, b.ljump, b.rjump, b.site, b.policy)
  }

  /** The box after `message_route_setstart`. */
  function Started(b: Box, p: Path): Box {
    b.(policy := p.id, flow := p.flow, state := STATE_MATCH, route := StrCopy(b.route, p.name), site := p.start)
  }

  function StartForest(f: Forest, b: Box, p: Path): Forest {
    if p.flow == FLOW_QUERY then Added(f, Trace(b.nonce, b.sender, p.id)) else f
  }

  function OrFlag(x: flags, y: flags): flags { x | y }

  lemma AspectFlag(x: flags)
    ensures OrFlag(x, ASPECT_FLAG) == x | 0x200
  {
  }

  /** CRYPT, SIGN, ZIP and VERIFY of the current message, all other flags saved. */
  function MixFlags(current: flags, saved: flags): flags { (current & 0xf0) | (saved & !0xf0) }

  function Inside(b: Box, nonce: Uuid): Box {
    b.(nonce := nonce, route := StrCopy(b.route, b.sender), ljump := 1, rjump := 1, flag := OrFlag(b.flag, ASPECT_FLAG))
  }

  function Duplicate(b: Box, p: Path): Box {
    b.(flag := OrFlag(b.flag, ASPECT_FLAG), ljump := 1, rjump := 1, route := StrCopy(b.route, p.name), sender := StrCopy(b.sender, b.sender))
  }

  function Recovered(b: Box, n: Node): Box
    requires n.Aspect?
  {
    Box(n.outer, n.sender, n.receiver, n.route, n.flow, n.state, MixFlags(b.flag, n.flag), n.ljump, n.rjump, n.path, n.site, b.others)
  }

  class Message {
    var box: Box

    constructor (box: Box)
      ensures this.box == box
    {
      this.box := box;
    }

    /** `_recover_aspect_message`. */
    method Recover(n: Node)
      requires n.Aspect?
      modifies this
      ensures box == Recovered(old(box), n)
    {
      hide MixFlags;
      box := box.(nonce := n.outer);
      box := box.(sender := n.sender);
      box := box.(receiver := n.receiver);
      box := box.(route := n.route);
      box := box.(flow := n.flow, state := n.state);
      box := box.(flag := MixFlags(box.flag, n.flag));
      box := box.(ljump := n.ljump, rjump := n.rjump);
      box := box.(policy := n.path, site := n.site);
    }
  }

  class Router {
    const forest: array<seq<Node>>

    ghost predicate Valid() { forest.Length == 256 }

    ghost function Nodes(): (f: Forest)
      requires Valid()
      reads forest
    {
      forest[..]
    }

    constructor ()
      ensures Valid() && fresh(forest) && Nodes() == NoNodes(256)
    {
      forest := new seq<Node>[256](_ => []);
    }

    /** `_node_list_add` on the bucket of the nonce. */
    method Add(n: Node)
      requires Valid()
      modifies forest
      ensures Nodes() == Added(old(Nodes()), n)
    {
      var i := HashIndex(n.uuid);
      forest[i] := forest[i] + [n];
    }

    method CreateAspectNode(m: Message, nonce: Uuid)
      requires Valid()
      modifies forest, m
      ensures Nodes() == Added(old(Nodes()), NodeOf(old(m.box), nonce))
      ensures m.box == old(m.box).(nonce := nonce, route := StrCopy(old(m.box.route), old(m.box.sender)))
      ensures ReadsAs(m.box.route, old(m.box.sender))
    {
      CopyReads(m.box.route, m.box.sender);
      hide StrCopy, Added, ReadsAs;
      var b := m.box;
      m.box := m.box.(nonce := nonce);
      var node := Aspect(m.box.nonce, b.nonce, m.box.sender, m.box.receiver, m.box.route, m.box.flow, m.box.state,
        m.box.flag, m.box.ljump, m.box.rjump, m.box.site, m.box.policy);
      m.box := m.box.(route := StrCopy(m.box.route, m.box.sender));
      Add(node);
    }

    method SetStart(m: Message, p: Path)
      requires Valid()
      modifies forest, m
      ensures m.box == Started(old(m.box), p)
      ensures Nodes() == StartForest(old(Nodes()), old(m.box), p)
      ensures Nodes() == if p.flow == 0x08 then Added(old(Nodes()), Trace(old(m.box.nonce), old(m.box.sender), p.id)) else old(Nodes())
      ensures ReadsAs(m.box.route, p.name) && m.box.state == 0x01
    {
      CopyReads(m.box.route, p.name);
      hide StrCopy, Added, ReadsAs;
      m.box := m.box.(policy := p.id);
      m.box := m.box.(flow := p.flow);
      m.box := m.box.(state := STATE_MATCH);
      m.box := m.box.(route := StrCopy(m.box.route, p.name));
      m.box := m.box.(site := p.start);
      if m.box.flow == FLOW_QUERY && m.box.state != STATE_RESPONSE {
        Add(Trace(m.box.nonce, m.box.sender, m.box.policy));
      }
    }

    /** `route_aspect_message`. */
    method AspectMessage(m: Message, branch: Branch, nonce: Uuid) returns (r: int)
      requires Valid()
      modifies forest, m
      ensures branch.kind != 0x40 ==> r == EINVAL && m.box == old(m.box) && Nodes() == old(Nodes())
      ensures branch.kind == 0x40 ==>
        && r == 1 && m.box == Started(Inside(old(m.box), nonce), branch.path)
        && Nodes() == StartForest(Added(old(Nodes()), NodeOf(old(m.box), nonce)), Inside(old(m.box), nonce), branch.path)
      ensures branch.kind == 0x40 ==> ReadsAs(m.box.route, branch.path.name) && m.box.flag == old(m.box.flag) | 0x200
    {
      AspectFlag(m.box.flag);
      hide StrCopy, Added, OrFlag, NodeOf, ReadsAs;
      if branch.kind != FLOW_ASPECT { return EINVAL; }
      CreateAspectNode(m, nonce);
      m.box := m.box.(ljump := 1);
      m.box := m.box.(rjump := 1);
      m.box := m.box.(flag := OrFlag(m.box.flag, ASPECT_FLAG));
      SetStart(m, branch.path);
      r := 1;
    }

    /** `route_dup_message`: no copy for any other kind of branch; the copy keeps the nonce. */
    method DupMessage(m: Message, branch: Branch) returns (copy: Message?)
      requires Valid()
      modifies forest
      ensures copy == null <==> branch.kind != 0x20
      ensures copy == null ==> Nodes() == old(Nodes())
      ensures copy != null ==>
        && fresh(copy) && copy.box == Started(Duplicate(m.box, branch.path), branch.path)
        && Nodes() == StartForest(old(Nodes()), Duplicate(m.box, branch.path), branch.path)
      ensures copy != null ==>
        ReadsAs(copy.box.route, branch.path.name) && copy.box.sender == m.box.sender && copy.box.flag == m.box.flag | 0x200
    {
      AspectFlag(m.box.flag);
      CopySelf(m.box.sender);
      hide StrCopy, Added, OrFlag, ReadsAs;
      if branch.kind != FLOW_DUP { return null; }
      var path := branch.path;
      copy := new Message(m.box);
      copy.box := copy.box.(flag := OrFlag(copy.box.flag, ASPECT_FLAG));
      copy.box := copy.box.(ljump := 1, rjump := 1);
      copy.box := copy.box.(route := StrCopy(copy.box.route, path.name));
      copy.box := copy.box.(sender := StrCopy(copy.box.sender, m.box.sender));
      SetStart(copy, path);
    }

    /** `message_route_findtrace`: the walk over the bucket of the nonce. */
    method FindTrace(m: Message, flow: int) returns (r: Option<Node>)
      requires Valid()
      ensures r == Find(Nodes(), m.box.nonce, flow == FLOW_ASPECT)
    {
      var bucket := forest[HashIndex(m.box.nonce)];
      var u := m.box.nonce;
      var i := 0;
      while i < |bucket|
        invariant i <= |bucket|
        invariant FindIn(bucket, u, flow == FLOW_ASPECT) == FindIn(bucket[i..], u, flow == FLOW_ASPECT)
      {
        var n := bucket[i];
        if n.uuid == u {
          if n.Aspect? {
            if flow == FLOW_ASPECT { return Some(n); }
          } else {
            if flow != FLOW_ASPECT { return Some(n); }
          }
        }
        assert bucket[i..][1..] == bucket[i + 1..];
        i := i + 1;
      }
      r := None;
    }

    /** At the end of a path: find the aspect node of the message and recover. */
    method LeaveAspect(m: Message) returns (found: bool)
      requires Valid()
      modifies m
      ensures found == Find(Nodes(), old(m.box.nonce), true).Some?
      ensures m.box == Left(Nodes(), old(m.box))
    {
      hide Recovered;
      FindIsAspect(Nodes(), m.box.nonce);
      var r := FindTrace(m, FLOW_ASPECT);
      found := r.Some?;
      if found { m.Recover(r.value); }
    }
  }

  lemma FindIsAspect(f: Forest, u: Uuid)
    ensures Find(f, u, true).Some? ==> Find(f, u, true).value.Aspect? && Find(f, u, true).value.uuid == u
  {
    FindInIsAspect(f[HashIndex(u)], u);
  }

  lemma {:induction false} FindInIsAspect(bucket: seq<Node>, u: Uuid)
    ensures FindIn(bucket, u, true).Some? ==> FindIn(bucket, u, true).value.Aspect? && FindIn(bucket, u, true).value.uuid == u
    ensures FindIn(bucket, u, true).Some? ==> FindIn(bucket, u, true).value in bucket
  {
    if bucket != [] {
      FindInIsAspect(bucket[1..], u);
    }
  }

  function Left(f: Forest, b: Box): Box {
    match Find(f, b.nonce, true)
    case None => b
    case Some(n) => if n.Aspect? then Recovered(b, n) else b
  }

  // ------------------------------------------------------------------------
  // Runs of a router over many messages

  datatype Step =
    | Arrive(box: Box)                              // a message new to the router
    | Start(m: nat, path: Path)                     // message_route_setstart
    | Enter(m: nat, branch: Branch, nonce: Uuid)    // route_aspect_message
    | Dup(m: nat, branch: Branch)                   // route_dup_message
    | Return(m: nat, box: Box)                      // a box that carries the nonce of `m` comes in
    | Work(m: nat, box: Box)                        // modules change anything but the nonce
    | Leave(m: nat)                                 // findtrace and aspectrecover

  datatype State = State(forest: Forest, boxes: seq<Box>)

  function Init(): State { State(NoNodes(256), []) }

  function NoNodes(n: nat): (f: seq<seq<Node>>)
    ensures |f| == n && forall k :: 0 <= k < n ==> f[k] == []
  {
    if n == 0 then [] else NoNodes(n - 1) + [[]]
  }

  /** No node of the bucket has seen the nonce. */
  predicate Unseen(bucket: seq<Node>, u: Uuid) {
    forall i :: 0 <= i < |bucket| ==> bucket[i].uuid != u && (bucket[i].Aspect? ==> bucket[i].outer != u)
  }

  predicate Fresh(st: State, u: Uuid) {
    && (forall i :: 0 <= i < |st.boxes| ==> st.boxes[i].nonce != u)
    && (forall k :: 0 <= k < 256 ==> Unseen(st.forest[k], u))
  }

  predicate Allowed(st: State, s: Step) {
    match s
    case Arrive(box) => Find(st.forest, box.nonce, true).None?
    case Start(m, _) => m < |st.boxes|
    case Enter(m, _, nonce) => m < |st.boxes| && Fresh(st, nonce)
    case Dup(m, _) => m < |st.boxes|
    case Return(m, box) => m < |st.boxes| && box.nonce == st.boxes[m].nonce
    case Work(m, box) => m < |st.boxes| && box.nonce == st.boxes[m].nonce
    case Leave(m) => m < |st.boxes|
  }

  function Next(st: State, s: Step): State {
    if !s.Arrive? && s.m >= |st.boxes| then st else
    match s
    case Arrive(box) => State(st.forest, st.boxes + [box])
    case Start(m, path) => State(StartForest(st.forest, st.boxes[m], path), st.boxes[m := Started(st.boxes[m], path)])
    case Enter(m, branch, nonce) =>
      if branch.kind != FLOW_ASPECT then st
      else
        State(StartForest(Added(st.forest, NodeOf(st.boxes[m], nonce)), Inside(st.boxes[m], nonce), branch.path),
              st.boxes[m := Started(Inside(st.boxes[m], nonce), branch.path)])
    case Dup(m, branch) =>
      if branch.kind != FLOW_DUP then st
      else
        State(StartForest(st.forest, Duplicate(st.boxes[m], branch.path), branch.path),
              st.boxes + [Started(Duplicate(st.boxes[m], branch.path), branch.path)])
    case Return(m, box) => State(st.forest, st.boxes + [box])
    case Work(m, box) => State(st.forest, st.boxes[m := box])
    case Leave(m) => State(st.forest, st.boxes[m := Left(st.forest, st.boxes[m])])
  }

  /** The state that a run reaches from the empty router. */
  function Run(steps: seq<Step>): State {
    if steps == [] then Init() else Next(Run(Most(steps)), Last(steps))
  }

  predicate Legal(steps: seq<Step>) {
    steps == [] || (Legal(Most(steps)) && Allowed(Run(Most(steps)), Last(steps)))
  }

  function Most(steps: seq<Step>): seq<Step> requires steps != [] { steps[..|steps| - 1] }

  function Last(steps: seq<Step>): Step requires steps != [] { steps[|steps| - 1] }

  // ------------------------------------------------------------------------
  // The same runs with a stack of saved boxes per message instead of the forest

  datatype Stack = Bottom | Push(saved: Box, below: Stack)

  datatype Carrier = Carrier(box: Box, stack: Stack)

  /** What leaving an aspect is for: everything of the saved head and place, but the flags
      CRYPT, SIGN, ZIP and VERIFY and all other content from the current message. */
  predicate Restores(after: Box, current: Box, saved: Box) {
    && after.nonce == saved.nonce && after.sender == saved.sender && after.receiver == saved.receiver
    && after.route == saved.route && after.flow == saved.flow && after.state == saved.state
    && after.ljump == saved.ljump && after.rjump == saved.rjump
    && after.policy == saved.policy && after.site == saved.site
    && after.flag & 0xf0 == current.flag & 0xf0 && after.flag & !0xf0 == saved.flag & !0xf0
    && after.others == current.others
  }

  function Popped(c: Carrier): Carrier {
    match c.stack
    case Bottom => c
    case Push(saved, below) =>
      Carrier(saved.(flag := MixFlags(c.box.flag, saved.flag), others := c.box.others), below)
  }

  lemma MixFlagsParts(current: flags, saved: flags)
    ensures MixFlags(current, saved) & 0xf0 == current & 0xf0 && MixFlags(current, saved) & !0xf0 == saved & !0xf0
  {
  }

  lemma PoppedRestores(c: Carrier)
    requires c.stack.Push?
    ensures Restores(Popped(c).box, c.box, c.stack.saved)
  {
    hide MixFlags;
    MixFlagsParts(c.box.flag, c.stack.saved.flag);
  }

  /** One step over stacks; there is no forest and no lookup. */
  function StackNext(cs: seq<Carrier>, s: Step): seq<Carrier> {
    if !s.Arrive? && s.m >= |cs| then cs else
    match s
    case Arrive(box) => cs + [Carrier(box, Bottom)]
    case Start(m, path) => cs[m := Carrier(Started(cs[m].box, path), cs[m].stack)]
    case Enter(m, branch, nonce) =>
      if branch.kind != FLOW_ASPECT then cs
      else cs[m := Carrier(Started(Inside(cs[m].box, nonce), branch.path), Push(cs[m].box, cs[m].stack))]
    case Dup(m, branch) =>
      if branch.kind != FLOW_DUP then cs
      else cs + [Carrier(Started(Duplicate(cs[m].box, branch.path), branch.path), cs[m].stack)]
    case Return(m, box) => cs + [Carrier(box, cs[m].stack)]
    case Work(m, box) => cs[m := Carrier(box, cs[m].stack)]
    case Leave(m) => cs[m := Popped(cs[m])]
  }

  /** The nonce leads through the forest to the saved boxes, one after the other. */
  predicate Chain(f: Forest, u: Uuid, stack: Stack)
    decreases stack
  {
    match stack
    case Bottom => Find(f, u, true).None?
    case Push(saved, below) => Find(f, u, true) == Some(NodeOf(saved, u)) && Chain(f, saved.nonce, below)
  }

  predicate Shows(st: State, cs: seq<Carrier>) {
    && |cs| == |st.boxes|
    && (forall i :: 0 <= i < |cs| ==> cs[i].box == st.boxes[i])
    && (forall i :: 0 <= i < |cs| ==> Chain(st.forest, cs[i].box.nonce, cs[i].stack))
  }

  lemma {:induction false} ChainTrace(f: Forest, n: Node, u: Uuid, stack: Stack)
    requires n.Trace? && Chain(f, u, stack)
    ensures Chain(Added(f, n), u, stack)
    decreases stack
  {
    hide Find, Added, NodeOf;
    FindAdded(f, n, u, true);
    if stack.Push? {
      ChainTrace(f, n, stack.saved.nonce, stack.below);
    }
  }

  lemma ChainStart(f: Forest, b: Box, p: Path, u: Uuid, stack: Stack)
    requires Chain(f, u, stack)
    ensures Chain(StartForest(f, b, p), u, stack)
  {
    if p.flow == FLOW_QUERY {
      ChainTrace(f, Trace(b.nonce, b.sender, p.id), u, stack);
    }
  }

  /** A node under a fresh nonce disturbs no chain. */
  lemma {:induction false} ChainAspect(st: State, n: Node, u: Uuid, stack: Stack)
    requires Fresh(st, n.uuid) && n.uuid != u && Chain(st.forest, u, stack)
    ensures Chain(Added(st.forest, n), u, stack)
    decreases stack
  {
    hide Added;
    FindAdded(st.forest, n, u, true);
    if stack.Push? {
      FindInIsAspect(st.forest[HashIndex(u)], u);
      ChainAspect(st, n, stack.saved.nonce, stack.below);
    }
  }

  lemma FreshNotFound(st: State, u: Uuid)
    requires Fresh(st, u)
    ensures Find(st.forest, u, true).None?
  {
    FindInIsAspect(st.forest[HashIndex(u)], u);
  }

  function StackRun(steps: seq<Step>): seq<Carrier> {
    if steps == [] then [] else StackNext(StackRun(Most(steps)), Last(steps))
  }

  // ------------------------------------------------------------------------
  // The forest implements the stacks

  lemma NextShows(st: State, cs: seq<Carrier>, s: Step)
    requires Shows(st, cs) && Allowed(st, s)
    ensures Shows(Next(st, s), StackNext(cs, s))
  {
    hide Shows, Allowed, Next, StackNext;
    if s.Arrive? || s.Return? || s.Dup? {
      NewShows(st, cs, s);
    } else {
      ChangeShows(st, cs, s);
    }
  }

  lemma NewShows(st: State, cs: seq<Carrier>, s: Step)
    requires Shows(st, cs) && Allowed(st, s) && (s.Arrive? || s.Return? || s.Dup?)
    ensures Shows(Next(st, s), StackNext(cs, s))
  {
    hide Chain, Started, StartForest, Duplicate;
    if s.Arrive? {
      ArriveShows(st, s.box);
    } else if s.Dup? {
      var path := s.branch.path;
      var copy := Duplicate(st.boxes[s.m], path);
      StartShows(st, cs, copy, path);
      StartKeepsNonce(copy, path);
      DupKeepsNonce(st.boxes[s.m], path);
    }
  }

  lemma ChangeShows(st: State, cs: seq<Carrier>, s: Step)
    requires Shows(st, cs) && Allowed(st, s) && !(s.Arrive? || s.Return? || s.Dup?)
    ensures Shows(Next(st, s), StackNext(cs, s))
  {
    hide Chain, Started, StartForest, NodeOf, Inside, Added;
    match s
    case Start(m, path) =>
      StartShows(st, cs, st.boxes[m], path);
      StartKeepsNonce(st.boxes[m], path);
    case Enter(m, branch, nonce) =>
      if branch.kind == FLOW_ASPECT {
        EnterShows(st, cs, m, branch.path, nonce);
      }
    case Work(m, box) =>
    case Leave(m) =>
      LeaveShows(st.forest, cs[m]);
  }

  lemma ArriveShows(st: State, box: Box)
    requires Find(st.forest, box.nonce, true).None?
    ensures Chain(st.forest, box.nonce, Bottom)
  {
  }

  lemma StartKeepsNonce(b: Box, p: Path)
    ensures Started(b, p).nonce == b.nonce
  {
  }

  lemma DupKeepsNonce(b: Box, p: Path)
    ensures Duplicate(b, p).nonce == b.nonce
  {
  }

  lemma StartShows(st: State, cs: seq<Carrier>, b: Box, p: Path)
    requires Shows(st, cs)
    ensures forall i :: 0 <= i < |cs| ==> Chain(StartForest(st.forest, b, p), cs[i].box.nonce, cs[i].stack)
  {
    hide Chain, StartForest;
    forall i | 0 <= i < |cs|
      ensures Chain(StartForest(st.forest, b, p), cs[i].box.nonce, cs[i].stack)
    {
      ChainStart(st.forest, b, p, cs[i].box.nonce, cs[i].stack);
    }
  }

  lemma EnterShows(st: State, cs: seq<Carrier>, m: nat, p: Path, nonce: Uuid)
    requires Shows(st, cs) && m < |cs| && Fresh(st, nonce)
    ensures var b := st.boxes[m];
      var f := StartForest(Added(st.forest, NodeOf(b, nonce)), Inside(b, nonce), p);
      && Chain(f, nonce, Push(b, cs[m].stack)) && Started(Inside(b, nonce), p).nonce == nonce
      && forall i :: 0 <= i < |cs| ==> Chain(f, cs[i].box.nonce, cs[i].stack)
  {
    hide StartForest, Added, Find, Unseen;
    var b, n := st.boxes[m], NodeOf(st.boxes[m], nonce);
    var f := Added(st.forest, n);
    forall i | 0 <= i < |cs|
      ensures Chain(f, cs[i].box.nonce, cs[i].stack)
    {
      ChainAspect(st, n, cs[i].box.nonce, cs[i].stack);
    }
    FreshNotFound(st, nonce);
    FindAdded(st.forest, n, nonce, true);
    assert Chain(f, nonce, Push(b, cs[m].stack));
    ChainStart(f, Inside(b, nonce), p, nonce, Push(b, cs[m].stack));
    forall i | 0 <= i < |cs|
      ensures Chain(StartForest(f, Inside(b, nonce), p), cs[i].box.nonce, cs[i].stack)
    {
      ChainStart(f, Inside(b, nonce), p, cs[i].box.nonce, cs[i].stack);
    }
  }

  lemma LeaveShows(f: Forest, c: Carrier)
    requires Chain(f, c.box.nonce, c.stack)
    ensures Popped(c).box == Left(f, c.box) && Chain(f, Popped(c).box.nonce, Popped(c).stack)
  {
    hide Find, MixFlags;
  }

  /** Over every run with fresh nonces, and with any number of messages and copies of
      messages that share the buckets with trace nodes, the lookups in the forest give
      every message the head that a private stack would give it. */
  lemma {:induction false} RunShows(steps: seq<Step>)
    requires Legal(steps)
    ensures Shows(Run(steps), StackRun(steps))
  {
    hide Next, StackNext, Allowed;
    if steps != [] {
      RunShows(Most(steps));
      NextShows(Run(Most(steps)), StackRun(Most(steps)), Last(steps));
    }
  }

  // ------------------------------------------------------------------------
  // Well-nested aspects

  datatype Depth = Below | Open(n: nat)

  /** Aspects that message `m` has entered and not left within `mid`. */
  function DepthOf(mid: seq<Step>, m: nat): Depth {
    if mid == [] then Open(0)
    else
      match DepthOf(Most(mid), m)
      case Below => Below
      case Open(n) => DepthNext(n, Last(mid), m)
  }

  function DepthNext(n: nat, s: Step, m: nat): Depth {
    if s.Enter? && s.m == m && s.branch.kind == FLOW_ASPECT then Open(n + 1)
    else if s.Leave? && s.m == m then (if n == 0 then Below else Open(n - 1))
    else Open(n)
  }

  function Drop(stack: Stack, k: nat): Stack {
    if k == 0 then stack else if stack.Bottom? then Bottom else Drop(stack.below, k - 1)
  }

  function Height(stack: Stack): nat { if stack.Bottom? then 0 else 1 + Height(stack.below) }

  /** The stack of `m` holds `base` under `n` further boxes. */
  predicate Rests(cs: seq<Carrier>, m: nat, n: nat, base: Stack) {
    m < |cs| && Drop(cs[m].stack, n) == base && Height(cs[m].stack) == Height(base) + n
  }

  lemma StackStep(cs: seq<Carrier>, s: Step, m: nat, n: nat, base: Stack)
    requires Rests(cs, m, n, base) && DepthNext(n, s, m).Open?
    ensures Rests(StackNext(cs, s), m, DepthNext(n, s, m).n, base)
  {
    hide Started, Inside, Duplicate, MixFlags;
    if s.Leave? && s.m == m {
      assert cs[m].stack.Push?;
    }
  }

  /** Steps within an aspect leave alone what lies below. */
  lemma {:induction false} StackKept(pre: seq<Step>, mid: seq<Step>, m: nat)
    requires m < |StackRun(pre)| && DepthOf(mid, m).Open?
    ensures Rests(StackRun(pre + mid), m, DepthOf(mid, m).n, StackRun(pre)[m].stack)
  {
    hide StackNext, DepthNext;
    if mid == [] {
      assert pre + mid == pre;
    } else {
      StackKept(pre, Most(mid), m);
      MostLast(pre, mid);
      hide Rests;
      StackStep(StackRun(pre + Most(mid)), Last(mid), m, DepthOf(Most(mid), m).n, StackRun(pre)[m].stack);
    }
  }

  lemma MostLast(pre: seq<Step>, mid: seq<Step>)
    requires mid != []
    ensures pre + mid != [] && Most(pre + mid) == pre + Most(mid) && Last(pre + mid) == Last(mid)
  {
  }

  /** A message that enters an aspect, is routed through any well-nested steps (of itself,
      and any steps of other messages), and leaves the aspect, has the head and the place it
      had before entering. */
  lemma AspectRestores(pre: seq<Step>, m: nat, branch: Branch, nonce: Uuid, mid: seq<Step>)
    requires m < |Run(pre).boxes| && branch.kind == FLOW_ASPECT
    requires DepthOf(mid, m) == Open(0)
    requires Legal(pre + [Enter(m, branch, nonce)] + mid + [Leave(m)])
    ensures var all := pre + [Enter(m, branch, nonce)] + mid;
      && m < |Run(all).boxes| && m < |Run(all + [Leave(m)]).boxes|
      && Restores(Run(all + [Leave(m)]).boxes[m], Run(all).boxes[m], Run(pre).boxes[m])
  {
    hide Next, StackNext, Allowed, Restores;
    var entered := pre + [Enter(m, branch, nonce)];
    var all := entered + mid;
    LegalPart(all, [Leave(m)]);
    LegalPart(entered, mid);
    LegalPart(pre, [Enter(m, branch, nonce)]);
    RunShows(pre);
    RunShows(entered);
    RunShows(all);
    RunShows(all + [Leave(m)]);
    MostLast(pre, [Enter(m, branch, nonce)]);
    EnterPushes(StackRun(pre), m, branch, nonce);
    assert pre + Most([Enter(m, branch, nonce)]) == pre;
    StackKept(entered, mid, m);
    MostLast(all, [Leave(m)]);
    assert all + Most([Leave(m)]) == all;
    LeavePops(StackRun(all), m);
    PoppedRestores(StackRun(all)[m]);
  }

  lemma EnterPushes(cs: seq<Carrier>, m: nat, branch: Branch, nonce: Uuid)
    requires m < |cs| && branch.kind == FLOW_ASPECT
    ensures var r := StackNext(cs, Enter(m, branch, nonce));
      |r| == |cs| && r[m].stack == Push(cs[m].box, cs[m].stack)
  {
  }

  lemma LeavePops(cs: seq<Carrier>, m: nat)
    requires m < |cs|
    ensures |StackNext(cs, Leave(m))| == |cs| && StackNext(cs, Leave(m))[m] == Popped(cs[m])
  {
  }

  lemma {:induction false} LegalPart(a: seq<Step>, b: seq<Step>)
    requires Legal(a + b)
    ensures Legal(a)
  {
    if b == [] {
      assert a + b == a;
    } else {
      MostLast(a, b);
      LegalPart(a, Most(b));
    }
  }

  // ------------------------------------------------------------------------
  // The program itself over runs

  /** The message objects hold the boxes of the state. */
  ghost predicate Holds(r: Router, ms: seq<Message>, st: State)
    reads r.forest, ms
  {
    && r.Valid() && r.Nodes() == st.forest && |ms| == |st.boxes|
    && (forall i :: 0 <= i < |ms| ==> ms[i].box == st.boxes[i])
    && (forall i, j :: 0 <= i < j < |ms| ==> ms[i] != ms[j])
  }

  method DoStep(r: Router, ms: seq<Message>, s: Step, ghost st: State) returns (ms': seq<Message>)
    requires Holds(r, ms, st) && Allowed(st, s)
    modifies r.forest, ms
    ensures Holds(r, ms', Next(st, s))
    ensures forall i :: 0 <= i < |ms'| ==> ms'[i] in ms || fresh(ms'[i])
  {
    hide Allowed, Next, Holds;
    if s.Arrive? || s.Return? || s.Dup? {
      ms' := DoNew(r, ms, s, st);
    } else {
      DoChange(r, ms, s, st);
      ms' := ms;
    }
  }

  /** The steps that bring a new message. */
  method DoNew(r: Router, ms: seq<Message>, s: Step, ghost st: State) returns (ms': seq<Message>)
    requires Holds(r, ms, st) && Allowed(st, s) && (s.Arrive? || s.Return? || s.Dup?)
    modifies r.forest
    ensures Holds(r, ms', Next(st, s))
    ensures forall i :: 0 <= i < |ms'| ==> ms'[i] in ms || fresh(ms'[i])
  {
    hide Started, StartForest, Duplicate, Find;
    ms' := ms;
    if s.Dup? {
      var copy := r.DupMessage(ms[s.m], s.branch);
      if copy != null { ms' := ms + [copy]; }
    } else {
      var m := new Message(s.box);
      ms' := ms + [m];
    }
  }

  /** The steps that change a message. */
  method DoChange(r: Router, ms: seq<Message>, s: Step, ghost st: State)
    requires Holds(r, ms, st) && Allowed(st, s) && !(s.Arrive? || s.Return? || s.Dup?)
    modifies r.forest, ms
    ensures Holds(r, ms, Next(st, s))
  {
    hide Started, StartForest, NodeOf, Inside, Added, Left, Find, Fresh;
    match s
    case Start(m, path) =>
      r.SetStart(ms[m], path);
    case Enter(m, branch, nonce) =>
      var _ := r.AspectMessage(ms[m], branch, nonce);
    case Work(m, box) =>
      ms[m].box := box;
    case Leave(m) =>
      var _ := r.LeaveAspect(ms[m]);
  }

  /** Any legal run of the program: every message has the head of its stack. */
  method Perform(steps: seq<Step>) returns (r: Router, ms: seq<Message>)
    requires Legal(steps)
    ensures Holds(r, ms, Run(steps)) && Shows(Run(steps), StackRun(steps))
  {
    hide Shows, Next, Allowed;
    r := new Router();
    ms := [];
    for i := 0 to |steps|
      invariant Holds(r, ms, Run(steps[..i]))
      invariant fresh(r.forest) && forall k :: 0 <= k < |ms| ==> fresh(ms[k])
    {
      assert steps == steps[..i + 1] + steps[i + 1..];
      LegalPart(steps[..i + 1], steps[i + 1..]);
      assert Most(steps[..i + 1]) == steps[..i];
      ms := DoStep(r, ms, steps[i], Run(steps[..i]));
    }
    assert steps[..|steps|] == steps;
    RunShows(steps);
  }
}
