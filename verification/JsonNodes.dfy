/** The nodes that the JSON parser links in place (`json_solve_str`): father pointers, child
    lists in order and counts of finished children. A node is named by its place in the order
    of allocation. */
module JsonNodes {
  import opened Base
  import opened Json
  import opened JsonParse

  /** JSON_NODE; `kids` is the child list, `elemNo` counts the children that are finished. */
  datatype Node = Node(father: Option<nat>, kind: Kind, name: string, kids: seq<nat>, elemNo: nat)

  // ------------------------------------------------------------------------
  // What the nodes stand for

  /** The nodes from `i` up to `hi` are those of the tree `t`, with `i` at its root; `counted`
      if every count is that of the children. */
  ghost predicate ShowsTree(ns: seq<Node>, i: nat, hi: nat, t: Json, counted: bool)
    decreases t, |t.kids| + 1
  {
    && i < hi <= |ns| && ns[i].kind == t.kind && ns[i].name == t.name
    && |ns[i].kids| == |t.kids| && (counted ==> ns[i].elemNo == |t.kids|)
    && ShowsKids(ns, i, hi, t, |t.kids|, counted)
  }

  /** The first `k` children of `i` are those of `t`, in nodes up to `hi`. */
  ghost predicate ShowsKids(ns: seq<Node>, i: nat, hi: nat, t: Json, k: nat, counted: bool)
    requires k <= |t.kids|
    decreases t, k
  {
    && i < hi <= |ns| && k <= |ns[i].kids|
    && (k > 0 ==>
          var c := ns[i].kids[k - 1];
          && i < c < hi && ns[c].father == Some(i)
          && ShowsTree(ns, c, hi, t.kids[k - 1], counted)
          && ShowsKids(ns, i, c, t, k - 1, counted))
  }

  function Tree(st: Stack): Json
    requires st.Open?
  {
    Json(st.kind, st.name, st.kids)
  }

  /** Node `i`, whose subtree so far ends before `hi`, is the open container on top of `st`,
      and its fathers are those below. */
  ghost predicate Chain(ns: seq<Node>, i: nat, hi: nat, st: Stack)
    decreases st
  {
    && st.Open? && st.kind.IsContainer() && i < hi <= |ns|
    && ns[i].kind == st.kind && ns[i].name == st.name && ns[i].elemNo == |st.kids|
    && ShowsKids(ns, i, hi, Tree(st), |st.kids|, true)
    && match st.below
       case Bottom => ns[i].father == None && i == 0
       case Open(_, _, _, kids) =>
         && ns[i].father.Some? && ns[i].father.value < i
         && |ns[ns[i].father.value].kids| == |kids| + 1 && ns[ns[i].father.value].kids[|kids|] == i
         && Chain(ns, ns[i].father.value, i, st.below)
  }

  const ROOT: Node := Node(None, Null, "", [], 0)

  /** The parser stands at node `curr` with the open containers `st`. */
  ghost predicate At(ns: seq<Node>, curr: nat, st: Stack) {
    if st.Bottom? then ns == [ROOT] && curr == 0
    else Chain(ns, curr, |ns|, st) && |ns[curr].kids| == |st.kids|
  }

  lemma {:induction false} KidsSame(ns: seq<Node>, ns': seq<Node>, i: nat, hi: nat, t: Json, t': Json, k: nat, counted: bool)
    requires k <= |t.kids| && ShowsKids(ns, i, hi, t, k, counted)
    requires k <= |t'.kids| && t'.kids[..k] == t.kids[..k]
    requires hi <= |ns'| && k <= |ns'[i].kids| && ns'[i].kids[..k] == ns[i].kids[..k]
    requires forall x :: i < x < hi ==> ns'[x] == ns[x]
    ensures ShowsKids(ns', i, hi, t', k, counted)
    decreases t, k
  {
    if k > 0 {
      var c := ns[i].kids[k - 1];
      assert ns'[i].kids[k - 1] == ns'[i].kids[..k][k - 1] == c;
      assert t'.kids[k - 1] == t'.kids[..k][k - 1] == t.kids[k - 1];
      TreeSame(ns, ns', c, hi, t.kids[k - 1], counted);
      assert t'.kids[..k - 1] == t'.kids[..k][..k - 1] && t.kids[..k - 1] == t.kids[..k][..k - 1];
      assert ns'[i].kids[..k - 1] == ns'[i].kids[..k][..k - 1] && ns[i].kids[..k - 1] == ns[i].kids[..k][..k - 1];
      KidsSame(ns, ns', i, c, t, t', k - 1, counted);
    }
  }

  lemma {:induction false} TreeSame(ns: seq<Node>, ns': seq<Node>, i: nat, hi: nat, t: Json, counted: bool)
    requires ShowsTree(ns, i, hi, t, counted)
    requires hi <= |ns'| && forall x :: i <= x < hi ==> ns'[x] == ns[x]
    ensures ShowsTree(ns', i, hi, t, counted)
    decreases t, |t.kids| + 1
  {
    KidsSame(ns, ns', i, hi, t, t, |t.kids|, counted);
  }

  lemma {:induction false} ChainSame(ns: seq<Node>, ns': seq<Node>, i: nat, hi: nat, st: Stack)
    requires Chain(ns, i, hi, st)
    requires hi <= |ns'| && forall x :: 0 <= x < hi ==> ns'[x] == ns[x]
    ensures Chain(ns', i, hi, st)
    decreases st
  {
    KidsSame(ns, ns', i, hi, Tree(st), Tree(st), |st.kids|, true);
    if st.below.Open? {
      ChainSame(ns, ns', ns[i].father.value, i, st.below);
    }
  }

  // ------------------------------------------------------------------------
  // What the parser does to the nodes

  /** A new node as the last child of `c`. */
  function Linked(ns: seq<Node>, c: nat, n: Node): (r: seq<Node>)
    requires c < |ns|
    ensures |r| == |ns| + 1
  {
    ns[c := ns[c].(kids := ns[c].kids + [|ns|])] + [n]
  }

  function Counted(ns: seq<Node>, c: nat): (r: seq<Node>)
    requires c < |ns|
    ensures |r| == |ns|
  {
    ns[c := ns[c].(elemNo := ns[c].elemNo + 1)]
  }

  /** A container is opened as the last child. */
  lemma AtOpened(ns: seq<Node>, c: nat, st: Stack, kind: Kind, name: string)
    requires At(ns, c, st) && st.Open? && kind.IsContainer()
    ensures At(Linked(ns, c, Node(Some(c), kind, name, [], 0)), |ns|, Open(st, kind, name, []))
  {
    var ns' := Linked(ns, c, Node(Some(c), kind, name, [], 0));
    KidsSame(ns, ns', c, |ns|, Tree(st), Tree(st), |st.kids|, true);
    if st.below.Open? {
      ChainSame(ns, ns', ns[c].father.value, c, st.below);
    }
    assert Chain(ns', c, |ns|, st);
  }

  /** A leaf is read as the last child, and counted. */
  lemma AtLeaf(ns: seq<Node>, c: nat, st: Stack, kind: Kind, name: string)
    requires At(ns, c, st) && st.Open?
    ensures At(Counted(Linked(ns, c, Node(Some(c), kind, name, [], 0)), c), c, Attach(st, Json(kind, name, [])))
  {
    var ns' := Counted(Linked(ns, c, Node(Some(c), kind, name, [], 0)), c);
    var st' := Attach(st, Json(kind, name, []));
    assert st'.kids[..|st.kids|] == st.kids;
    assert ns'[c].kids[..|st.kids|] == ns[c].kids;
    KidsSame(ns, ns', c, |ns|, Tree(st), Tree(st'), |st.kids|, true);
    assert ShowsTree(ns', |ns|, |ns'|, Json(kind, name, []), true);
    if st.below.Open? {
      ChainSame(ns, ns', ns[c].father.value, c, st.below);
    }
  }

  /** A container is closed, and counted as a child of its father. */
  lemma AtClosed(ns: seq<Node>, c: nat, st: Stack)
    requires At(ns, c, st) && st.Open? && st.below.Open?
    ensures ns[c].father.Some? && ns[c].father.value < |ns|
    ensures At(Counted(ns, ns[c].father.value), ns[c].father.value, Attach(st.below, Tree(st)))
  {
    var f := ns[c].father.value;
    assert Chain(ns, f, c, st.below);
    assert ShowsKids(ns, f, c, Tree(st.below), |st.below.kids|, true);
    var ns' := Counted(ns, f);
    var st' := Attach(st.below, Tree(st));
    assert ShowsTree(ns, c, |ns|, Tree(st), true);
    TreeSame(ns, ns', c, |ns|, Tree(st), true);
    assert st'.kids[..|st.below.kids|] == st.below.kids;
    KidsSame(ns, ns', f, c, Tree(st.below), Tree(st'), |st.below.kids|, true);
    if st.below.below.Open? {
      ChainSame(ns, ns', ns[f].father.value, f, st.below.below);
    }
    assert ShowsKids(ns', f, |ns|, Tree(st'), |st'.kids|, true);
    assert Chain(ns', f, |ns|, st');
  }

  /** The root is closed: the nodes are those of its tree. */
  lemma RootClosed(ns: seq<Node>, c: nat, st: Stack)
    requires At(ns, c, st) && st.Open? && st.below.Bottom?
    ensures c == 0 && ns[c].father == None && ShowsTree(ns, 0, |ns|, Tree(st), true)
  {
  }

  /** The type of the root is found. */
  lemma RootOpened(kind: Kind)
    requires kind.IsContainer()
    ensures At([ROOT.(kind := kind)], 0, Open(Bottom, kind, [], []))
  {
  }

  lemma {:induction false} KidsUncounted(ns: seq<Node>, i: nat, hi: nat, t: Json, k: nat)
    requires k <= |t.kids| && ShowsKids(ns, i, hi, t, k, true)
    ensures ShowsKids(ns, i, hi, t, k, false)
    decreases t, k
  {
    if k > 0 {
      var c := ns[i].kids[k - 1];
      TreeUncounted(ns, c, hi, t.kids[k - 1]);
      KidsUncounted(ns, i, c, t, k - 1);
    }
  }

  lemma {:induction false} TreeUncounted(ns: seq<Node>, i: nat, hi: nat, t: Json)
    requires ShowsTree(ns, i, hi, t, true)
    ensures ShowsTree(ns, i, hi, t, false)
    decreases t, |t.kids| + 1
  {
    KidsUncounted(ns, i, hi, t, |t.kids|);
  }

  /** The tree of a text that leaves containers open. */
  lemma UnfinishedShown(ns: seq<Node>, c: nat, st: Stack)
    requires At(ns, c, st)
    ensures ShowsTree(ns, 0, |ns|, Unfinished(st), false)
  {
    if st.Open? {
      KidsUncounted(ns, c, |ns|, Tree(st), |st.kids|);
      assert ShowsTree(ns, c, |ns|, Tree(st), false);
      if st.below.Open? {
        UnfinishedIn'(ns, ns[c].father.value, c, st.below, Tree(st));
      }
    }
  }

  lemma {:induction false} UnfinishedIn'(ns: seq<Node>, f: nat, c: nat, st: Stack, node: Json)
    requires Chain(ns, f, c, st) && ShowsTree(ns, c, |ns|, node, false) && ns[c].father == Some(f)
    requires |ns[f].kids| == |st.kids| + 1 && ns[f].kids[|st.kids|] == c
    ensures ShowsTree(ns, 0, |ns|, UnfinishedIn(st, node), false)
    decreases st
  {
    var up := Json(st.kind, st.name, st.kids + [node]);
    KidsUncounted(ns, f, c, Tree(st), |st.kids|);
    assert up.kids[..|st.kids|] == st.kids;
    KidsSame(ns, ns, f, c, Tree(st), up, |st.kids|, false);
    assert ShowsTree(ns, f, |ns|, up, false);
    if st.below.Open? {
      UnfinishedIn'(ns, ns[f].father.value, f, st.below, up);
    }
  }

  // ------------------------------------------------------------------------
  // The parser

  /** `json_get_boolvalue`. */
  method GetBoolValue(s: string) returns (r: Result<(int, nat)>)
    ensures r == BoolValue(s)
  {
    if StartsWith(s, "true") { return Ok((1, 4)); }
    if StartsWith(s, "True") { return Ok((1, 4)); }
    if StartsWith(s, "TRUE") { return Ok((1, 4)); }
    if StartsWith(s, "false") { return Ok((1, 5)); }
    if StartsWith(s, "False") { return Ok((1, 5)); }
    if StartsWith(s, "FALSE") { return Ok((1, 5)); }
    r := Err(EINVAL);
  }

  class Parser {
    var nodes: seq<Node>
    var curr: Option<nat>

    /** The root node, of no type yet. */
    constructor ()
      ensures nodes == [ROOT] && curr == Some(0)
    {
      nodes := [ROOT];
      curr := Some(0);
    }

    /** The parser stands with the open containers `st`. */
    ghost predicate Stands(st: Stack)
      reads this
    {
      curr.Some? && At(nodes, curr.value, st)
    }

    /** `_new_json_node`: linked at the tail of the father's child list. */
    method NewNode(father: nat) returns (i: nat)
      requires father < |nodes|
      modifies this`nodes
      ensures i == |old(nodes)| && nodes == Linked(old(nodes), father, Node(Some(father), Null, "", [], 0))
    {
      i := |nodes|;
      nodes := nodes[father := nodes[father].(kids := nodes[father].kids + [i])];
      nodes := nodes + [Node(Some(father), Null, "", [], 0)];
    }

    /** A value of a leaf, in the node `child` that is linked already but has no type. */
    method LeafOf(s: string, father: Kind) returns (r: Result<(Kind, nat)>)
      ensures r == LeafValue(s, father)
    {
      hide StrValue, NumValue, BoolValue;
      if CharAt(s, 0) == '"' {
        var v := GetStrValue(s);
        if v.Err? { return Err(v.code); }
        if v.value.1 > (if father.Object? then 770 else 514) { return Err(EINVAL); }
        return Ok((Text(v.value.0), v.value.1));
      }
      if IsDigit(CharAt(s, 0)) || (father.Object? && CharAt(s, 0) == '-') {
        var v := GetNumValue(s);
        if v.Err? { return Err(v.code); }
        return Ok((Number(v.value.0), v.value.1));
      }
      var v := GetBoolValue(s);
      if v.Err? { return Err(v.code); }
      r := Ok((Boolean(v.value.0), v.value.1));
    }

    /** The value of a member, read into its node: a container becomes the current node, a leaf
        is counted. */
    method SolveValue(s: string, i: nat, child: nat, name: string, ghost was: seq<Node>, ghost st: Stack) returns (r: Result<nat>)
      requires st.Open? && i <= |s| && curr.Some? && At(was, curr.value, st) && child == |was|
      requires nodes == Linked(was, curr.value, Node(curr, Null, name, [], 0))
      modifies this
      ensures match Value(s, i, st, name)
        case Fail(c) => r == Err(c)
        case Finish(_, _) => false
        case Go(n, st') => r == Ok(n) && Stands(st')
    {
      hide At, LeafValue;
      KindAt(was, curr.value, st);
      var c := curr.value;
      if CharAt(s, i) == '{' {
        nodes := nodes[child := nodes[child].(kind := Object)];
        assert nodes == Linked(was, c, Node(Some(c), Object, name, [], 0));
        AtOpened(was, c, st, Object, name);
        curr := Some(child);
        return Ok(i + 1);
      }
      if CharAt(s, i) == '[' {
        nodes := nodes[child := nodes[child].(kind := Array)];
        assert nodes == Linked(was, c, Node(Some(c), Array, name, [], 0));
        AtOpened(was, c, st, Array, name);
        curr := Some(child);
        return Ok(i + 1);
      }
      var v := LeafOf(s[i..], nodes[c].kind);
      if v.Err? { return Err(v.code); }
      var n := v.value.1;
      if n == 0 || i + n > |s| { return Err(EINVAL); }
      nodes := nodes[child := nodes[child].(kind := v.value.0)];
      assert nodes == Linked(was, c, Node(Some(c), v.value.0, name, [], 0));
      nodes := Counted(nodes, c);
      AtLeaf(was, c, st, v.value.0, name);
      r := Ok(i + n);
    }

    /** A member of an object: name, colon and value. */
    method SolveMember(s: string, ghost st: Stack) returns (r: Result<nat>)
      requires st.Open? && Stands(st)
      modifies this
      ensures match Member(s, st)
        case Fail(c) => r == Err(c)
        case Finish(_, _) => false
        case Go(n, st') => r == Ok(n) && Stands(st')
    {
      hide At, Value, StrValue;
      ghost var was := nodes;
      KindAt(was, curr.value, st);
      var child := NewNode(curr.value);
      var v := GetStrValue(s);
      if v.Err? { return Err(v.code); }
      var name, n := v.value.0, v.value.1;
      if n >= 32 { return Err(n); }
      nodes := nodes[child := nodes[child].(name := name)];
      var i := SkipBlanks(s, n);
      if CharAt(s, i) != ':' { return Err(EINVAL); }
      i := SkipBlanks(s, i + 1);
      r := SolveValue(s, i, child, name, was, st);
    }

    /** The closing bracket of the current container. */
    method CloseNode(ghost st: Stack)
      requires st.Open? && Stands(st)
      modifies this
      ensures st.below.Open? ==> Stands(Attach(st.below, Tree(st)))
      ensures st.below.Bottom? ==> curr == None && ShowsTree(nodes, 0, |nodes|, Tree(st), true)
    {
      hide At, ShowsTree;
      var c := curr.value;
      KindAt(nodes, c, st);
      if st.below.Bottom? { RootClosed(nodes, c, st); } else { AtClosed(nodes, c, st); }
      curr := nodes[c].father;
      if curr.Some? {
        nodes := Counted(nodes, curr.value);
      }
    }

    /** One iteration of `json_solve_str`, at a character that is not the end. */
    method SolveStep(s: string, ghost st: Stack) returns (r: Result<nat>)
      requires s != [] && Stands(st)
      modifies this
      ensures match Move1(s, st)
        case Fail(c) => r == Err(c)
        case Finish(n, t) => r == Ok(n) && curr == None && ShowsTree(nodes, 0, |nodes|, t, true)
        case Go(n, st') => r == Ok(n) && Stands(st')
    {
      hide At, Value, Member, ShowsTree;
      if IsSplitChar(s[0]) { return Ok(1); }
      KindAt(nodes, curr.value, st);
      var kind := nodes[curr.value].kind;
      if kind.Null? {
        if s[0] == '{' {
          nodes := nodes[curr.value := nodes[curr.value].(kind := Object)];
          assert nodes == [ROOT.(kind := Object)];
          RootOpened(Object);
          return Ok(1);
        }
        if s[0] == '[' {
          nodes := nodes[curr.value := nodes[curr.value].(kind := Array)];
          assert nodes == [ROOT.(kind := Array)];
          RootOpened(Array);
          return Ok(1);
        }
        return Err(EINVAL);
      }
      if s[0] == CloseChar(kind) {
        CloseNode(st);
        return Ok(1);
      }
      if kind.Object? {
        r := SolveMember(s, st);
      } else {
        ghost var was := nodes;
        var child := NewNode(curr.value);
        r := SolveValue(s, 0, child, "", was, st);
      }
    }

    /** `json_solve_str`: the tree in the nodes, and how many characters of the text it took. */
    method Solve(str: string) returns (r: Result<nat>)
      requires nodes == [ROOT] && curr == Some(0)
      modifies this
      ensures match Parse(str, Bottom)
        case Err(c) => r == Err(c)
        case Ok((t, rest)) => |rest| <= |str| && r == Ok(|str| - |rest|) && ShowsTree(nodes, 0, |nodes|, t, false)
    {
      hide Move1, ShowsTree, Chain;
      ghost var st := Bottom;
      var offset := 0;
      while offset < |str|
        invariant offset <= |str| && Stands(st)
        invariant Parse(str[offset..], st) == Parse(str, Bottom)
      {
        ghost var s := str[offset..];
        var step := SolveStep(str[offset..], st);
        if step.Err? { return Err(step.code); }
        assert s[step.value..] == str[offset + step.value..];
        if curr == None {
          TreeUncounted(nodes, 0, |nodes|, Move1(s, st).tree);
          return Ok(offset + step.value);
        }
        st := Move1(s, st).st;
        offset := offset + step.value;
      }
      UnfinishedShown(nodes, curr.value, st);
      r := Ok(offset);
    }
  }

  method SkipBlanks(s: string, i: nat) returns (n: nat)
    ensures n == Blanks(s, i)
  {
    n := i;
    while n < |s| && IsIgnoreChar(s[n])
      invariant Blanks(s, n) == Blanks(s, i)
    {
      n := n + 1;
    }
  }

  /** The current node has the type of the container on top. */
  lemma KindAt(ns: seq<Node>, c: nat, st: Stack)
    requires At(ns, c, st)
    ensures c < |ns| && ns[c].kind == (if st.Open? then st.kind else Null)
    ensures st.Open? ==> st.kind.IsContainer()
    ensures st.Bottom? ==> ns == [ROOT] && c == 0
  {
  }

  /** Print a tree and parse the text, with anything behind it: the nodes show the tree. */
  method PrintAndSolve(doc: Document, rest: string) returns (text: string, r: Result<nat>, parser: Parser)
    requires doc.root.kind.IsContainer() && CleanTree(doc.root) && doc.root.name == []
    modifies doc`compNo, doc`cursor
    ensures text == TreeText(doc.root)
    ensures NegativeFrom(doc.root, 0) ==> r == Err(EINVAL)
    ensures !NegativeFrom(doc.root, 0) ==> r == Ok(|text|) && ShowsTree(parser.nodes, 0, |parser.nodes|, ReadTree(doc.root), false)
    ensures !NegativeFrom(doc.root, 0) && TrueOnly(doc.root) ==> ShowsTree(parser.nodes, 0, |parser.nodes|, doc.root, false)
  {
    hide ShowsTree, TreeText, Parse;
    CleanPrintable(doc.root);
    var p := doc.Print();
    text := p.value;
    PrintedRead(doc.root, rest);
    ReadSame(doc.root);
    parser := new Parser();
    r := parser.Solve(text + rest);
  }
}
