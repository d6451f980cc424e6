/** JSON trees and their printer (`json_print_str`), which finds its way with the
    father pointers, the child cursors and the counters in the nodes. */
module Json {
  import opened Base
  import opened Text

  datatype Kind =
    | Null                    // a root whose type is not known yet
    | Object                  // JSON_ELEM_MAP
    | Array                   // JSON_ELEM_ARRAY
    | Text(text: string)      // JSON_ELEM_STRING
    | Number(value: int)      // JSON_ELEM_NUM, a 64 bit field
    | Boolean(value: int)     // JSON_ELEM_BOOL
  {
    predicate IsContainer() { Object? || Array? }
  }

  /** A node; the members of arrays and the root have no name, and only containers
      have children. */
  datatype Json = Json(kind: Kind, name: string, kids: seq<Json>)

  function OpenChar(kind: Kind): char { if kind.Object? then '{' else '[' }

  function CloseChar(kind: Kind): char { if kind.Object? then '}' else ']' }

  /** The value field read as a C `int`. */
  function AsInt(value: int): (n: int)
    ensures INT_MIN <= n <= INT_MAX
  {
    var w := value % 0x1_0000_0000;
    if w <= INT_MAX then w else w - 0x1_0000_0000
  }

  /** `Strnlen` and `Memcpy`: the text up to a zero character, at most `n` characters. */
  function Cut(s: string, n: nat): string {
    if n == 0 || s == [] || s[0] == '\0' then [] else [s[0]] + Cut(s[1..], n - 1)
  }

  // ------------------------------------------------------------------------
  // The text of a tree

  function Label(kind: Kind, name: string): string {
    if kind.Object? then ['"'] + Cut(name, 32) + ['"', ':'] else []
  }

  function LeafText(kind: Kind): string {
    match kind
    case Text(s) => ['"'] + Cut(s, 512) + ['"']
    case Number(v) => Decimal(AsInt(v))
    case Boolean(v) => if v != 0 then "true" else "false"
    case _ => []
  }

  function TreeText(t: Json): string
    decreases t, |t.kids| + 1
  {
    if t.kind.IsContainer() then [OpenChar(t.kind)] + KidsText(t, 0) + [CloseChar(t.kind)]
    else LeafText(t.kind)
  }

  /** Children `k` and on, with the commas before them. */
  function KidsText(t: Json, k: nat): string
    requires k <= |t.kids|
    decreases t, |t.kids| - k
  {
    if k == |t.kids| then []
    else Comma(k) + Label(t.kind, t.kids[k].name) + TreeText(t.kids[k]) + KidsText(t, k + 1)
  }

  function Comma(k: nat): string { if k > 0 then [','] else [] }

  /** The 32 bits of the field, as a signed number. */
  lemma AsIntExact(value: int)
    ensures -0x8000_0000 <= AsInt(value) < 0x8000_0000 && (value - AsInt(value)) % 0x1_0000_0000 == 0
  {
  }

  lemma {:induction false} CutExact(s: string, n: nat, m: nat)
    requires m <= |s| && m <= n && '\0' !in s[..m] && (m == n || m == |s| || s[m] == '\0')
    ensures Cut(s, n) == s[..m]
    decreases m
  {
    if m > 0 {
      assert s[0] == s[..m][0] && s[1..][..m - 1] == s[..m][1..];
      CutExact(s[1..], n - 1, m - 1);
    }
  }

  /** A name is printed up to its zero character, and at most 32 characters of it. */
  lemma LabelExact(name: string, m: nat)
    requires m <= |name| && m <= 32 && '\0' !in name[..m] && (m == 32 || m == |name| || name[m] == '\0')
    ensures Label(Object, name) == ['"'] + name[..m] + ['"', ':'] && Label(Array, name) == []
  {
    CutExact(name, 32, m);
  }

  /** A string is printed up to its zero character, and at most 512 characters of it. */
  lemma StringExact(s: string, m: nat)
    requires m <= |s| && m <= 512 && '\0' !in s[..m] && (m == 512 || m == |s| || s[m] == '\0')
    ensures LeafText(Text(s)) == ['"'] + s[..m] + ['"']
  {
    CutExact(s, 512, m);
  }

  lemma Alone(a: string)
    ensures [] + a == a && a + [] == a
  {
  }

  lemma OneKid(kind: Kind, name: string, a: Json)
    ensures KidsText(Json(kind, name, [a]), 0) == Label(kind, a.name) + TreeText(a)
  {
    hide Label, TreeText;
    var x := Label(kind, a.name) + TreeText(a);
    assert KidsText(Json(kind, name, [a]), 1) == [];
    Alone(Label(kind, a.name));
    Alone(x);
  }

  lemma TwoKids(kind: Kind, name: string, a: Json, b: Json)
    ensures KidsText(Json(kind, name, [a, b]), 0) ==
            (Label(kind, a.name) + TreeText(a)) + ([','] + Label(kind, b.name) + TreeText(b))
  {
    hide Label, TreeText;
    var two := Json(kind, name, [a, b]);
    assert KidsText(two, 2) == [];
    Alone([','] + Label(kind, b.name) + TreeText(b));
    Alone(Label(kind, a.name));
    assert KidsText(two, 1) == [','] + Label(kind, b.name) + TreeText(b);
  }

  /** Members of an array stand in square brackets, with commas between them. */
  lemma ArrayText(name: string, a: Json, b: Json)
    ensures TreeText(Json(Array, name, [])) == "[]"
    ensures TreeText(Json(Array, name, [a])) == ['['] + TreeText(a) + [']']
    ensures TreeText(Json(Array, name, [a, b])) == ['['] + (TreeText(a) + ([','] + TreeText(b))) + [']']
  {
    hide KidsText;
    NoKids(Array, name);
    OneKid(Array, name, a);
    TwoKids(Array, name, a, b);
    Alone(TreeText(a));
    Alone([',']);
  }

  /** Members of an object stand in braces, each behind its name. */
  lemma ObjectText(name: string, a: Json, b: Json)
    ensures TreeText(Json(Object, name, [])) == "{}"
    ensures TreeText(Json(Object, name, [a])) == ['{'] + (Label(Object, a.name) + TreeText(a)) + ['}']
    ensures TreeText(Json(Object, name, [a, b])) ==
            ['{'] + ((Label(Object, a.name) + TreeText(a)) + ([','] + Label(Object, b.name) + TreeText(b))) + ['}']
  {
    hide KidsText, Label;
    NoKids(Object, name);
    OneKid(Object, name, a);
    TwoKids(Object, name, a, b);
  }

  lemma NoKids(kind: Kind, name: string)
    ensures KidsText(Json(kind, name, []), 0) == []
  {
  }

  /** A child whose type was never set, among children `k` and on or below them. */
  predicate NullFrom(t: Json, k: nat)
    requires k <= |t.kids|
    decreases t, |t.kids| - k
  {
    k < |t.kids| && (NullTree(t.kids[k]) || NullFrom(t, k + 1))
  }

  predicate NullTree(t: Json)
    decreases t, |t.kids| + 1
  {
    if t.kind.IsContainer() then NullFrom(t, 0) else t.kind.Null?
  }

  /** No number in the tree is the smallest `int`, which `Itoa` cannot print. */
  predicate Printable(t: Json) {
    (t.kind.Number? ==> AsInt(t.kind.value) != INT_MIN) && forall k :: 0 <= k < |t.kids| ==> Printable(t.kids[k])
  }

  // ------------------------------------------------------------------------
  // The printer

  datatype Path = Root | Child(up: Path, i: nat)

  predicate Valid(root: Json, p: Path)
    decreases p, 0
  {
    p.Root? || (Valid(root, p.up) && p.i < |NodeAt(root, p.up).kids|)
  }

  function NodeAt(root: Json, p: Path): Json
    requires Valid(root, p)
    decreases p, 1
  {
    if p.Root? then root else NodeAt(root, p.up).kids[p.i]
  }

  /** What the containers above `p` still have to print when `p` is done. */
  ghost function AboveText(root: Json, p: Path): string
    requires Valid(root, p)
    decreases p
  {
    if p.Root? then []
    else
      var t := NodeAt(root, p.up);
      KidsText(t, p.i + 1) + [CloseChar(t.kind)] + AboveText(root, p.up)
  }

  /** The containers above `p` still have such a child to come. */
  ghost predicate NullAbove(root: Json, p: Path)
    requires Valid(root, p)
    decreases p
  {
    p.Child? && (NullFrom(NodeAt(root, p.up), p.i + 1) || NullAbove(root, p.up))
  }

  ghost predicate NullTodo(root: Json, compNo: map<Path, nat>, p: Path)
    requires Valid(root, p) && Get(compNo, p) <= |NodeAt(root, p).kids|
  {
    NullFrom(NodeAt(root, p), Get(compNo, p)) || NullAbove(root, p)
  }

  /** What a container has to print when `c` of its children are begun. */
  ghost function RestText(t: Json, c: nat): string
    requires c <= |t.kids|
  {
    if c == 0 then TreeText(t) else KidsText(t, c) + [CloseChar(t.kind)]
  }

  function Get(m: map<Path, nat>, p: Path): nat { if p in m then m[p] else 0 }

  ghost function Depth(p: Path): nat { if p.Root? then 0 else Depth(p.up) + 1 }

  /** Every container above `p` is at the child that leads to `p`. */
  ghost predicate Leads(root: Json, compNo: map<Path, nat>, cursor: map<Path, nat>, p: Path)
    requires Valid(root, p)
  {
    p.Root? ||
    (&& Leads(root, compNo, cursor, p.up)
     && NodeAt(root, p.up).kind.IsContainer()
     && Get(compNo, p.up) == p.i + 1 && p.up in cursor && cursor[p.up] == p.i)
  }

  /** The counters and cursors agree with a printer that stands at `p`. */
  ghost predicate Standing(root: Json, compNo: map<Path, nat>, cursor: map<Path, nat>, p: Path) {
    && Valid(root, p) && Leads(root, compNo, cursor, p)
    && (p.Child? ==> NodeAt(root, p).kind.IsContainer())
    && Get(compNo, p) <= |NodeAt(root, p).kids|
    && (Get(compNo, p) > 0 ==> p in cursor && cursor[p] == Get(compNo, p) - 1)
  }

  /** The text still to be printed. */
  ghost function Todo(root: Json, compNo: map<Path, nat>, p: Path): string
    requires Valid(root, p) && Get(compNo, p) <= |NodeAt(root, p).kids|
  {
    RestText(NodeAt(root, p), Get(compNo, p)) + AboveText(root, p)
  }

  lemma {:induction false} LeadsSame(root: Json, compNo: map<Path, nat>, cursor: map<Path, nat>,
                                     q: Path, c: nat, i: nat, p: Path)
    requires Valid(root, p) && Leads(root, compNo, cursor, p) && Depth(p) <= Depth(q)
    ensures Leads(root, compNo[q := c], cursor, p) && Leads(root, compNo, cursor[q := i], p)
  {
    if p.Child? { LeadsSame(root, compNo, cursor, q, c, i, p.up); }
  }

  /** The node is finished: back to its father. */
  lemma MoveUp(root: Json, compNo: map<Path, nat>, cursor: map<Path, nat>, p: Path)
    requires Valid(root, p) && Leads(root, compNo, cursor, p) && p.Child?
    ensures View(root, compNo, cursor, p.up) == Ok(AboveText(root, p))
  {
    var t := NodeAt(root, p.up);
    assert KidsText(t, p.i + 1) + [CloseChar(t.kind)] + AboveText(root, p.up) == RestText(t, p.i + 1) + AboveText(root, p.up);
  }

  /** What is written before child `c`. */
  function Lead(kind: Kind, c: nat): string { if c == 0 then [OpenChar(kind)] else [','] }

  lemma Assoc3(a: string, b: string, c: string, rest: string)
    ensures a + (b + c + rest) == a + b + c + rest
  {
  }

  lemma Assoc4(a: string, b: string, c: string, d: string, rest: string)
    ensures a + (b + c + d + rest) == a + b + c + d + rest
    ensures (a + b + c + d) + rest == a + b + c + (d + rest)
  {
  }

  lemma RestStep(t: Json, c: nat)
    requires c < |t.kids| && t.kind.IsContainer()
    ensures RestText(t, c) == Lead(t.kind, c) + Label(t.kind, t.kids[c].name) + TreeText(t.kids[c]) + RestText(t, c + 1)
  {
    var head, kid, tail := Label(t.kind, t.kids[c].name), TreeText(t.kids[c]), KidsText(t, c + 1);
    assert KidsText(t, c) == Comma(c) + head + kid + tail;
    Assoc4(Comma(c), head, kid, tail, [CloseChar(t.kind)]);
    if c == 0 {
      assert [] + head == head;
      Assoc3([OpenChar(t.kind)], head, kid, tail);
      Assoc4([OpenChar(t.kind)], head, kid, tail, [CloseChar(t.kind)]);
    }
  }

  /** The text to come, for a printer that stands at a container. */
  ghost function View(root: Json, compNo: map<Path, nat>, cursor: map<Path, nat>, p: Path): Result<string> {
    if Standing(root, compNo, cursor, p) && NodeAt(root, p).kind.IsContainer() then Ok(Todo(root, compNo, p)) else Err(EINVAL)
  }

  /** The next child is a leaf: it is printed at once. */
  lemma MoveOn(root: Json, compNo: map<Path, nat>, cursor: map<Path, nat>, p: Path, str: string, rest: string)
    returns (rest': string)
    requires View(root, compNo, cursor, p) == Ok(rest) && Get(compNo, p) < |NodeAt(root, p).kids|
    ensures
      var t := NodeAt(root, p);
      var c := Get(compNo, p);
      && View(root, compNo[p := c + 1], cursor[p := c], p) == Ok(rest')
      && str + rest == str + Lead(t.kind, c) + Label(t.kind, t.kids[c].name) + TreeText(t.kids[c]) + rest'
      && |rest'| < |rest|
  {
    var t := NodeAt(root, p);
    var c := Get(compNo, p);
    rest' := Todo(root, compNo[p := c + 1], p);
    LeadsSame(root, compNo, cursor, p, c + 1, c, p);
    LeadsSame(root, compNo[p := c + 1], cursor, p, c + 1, c, p);
    RestStep(t, c);
    var lead, head, kid := Lead(t.kind, c), Label(t.kind, t.kids[c].name), TreeText(t.kids[c]);
    Assoc4(lead, head, kid, RestText(t, c + 1), AboveText(root, p));
    Assoc4(str, lead, head, kid, rest');
  }

  /** The next child is a container: the printer goes down to it. */
  lemma MoveDown(root: Json, compNo: map<Path, nat>, cursor: map<Path, nat>, p: Path, str: string, rest: string)
    returns (rest': string)
    requires View(root, compNo, cursor, p) == Ok(rest) && Get(compNo, p) < |NodeAt(root, p).kids|
    requires NodeAt(root, p).kids[Get(compNo, p)].kind.IsContainer()
    ensures
      var t := NodeAt(root, p);
      var c := Get(compNo, p);
      && View(root, compNo[p := c + 1][Child(p, c) := 0], cursor[p := c], Child(p, c)) == Ok(rest')
      && str + rest == str + Lead(t.kind, c) + Label(t.kind, t.kids[c].name) + rest'
      && |rest'| < |rest|
  {
    var t := NodeAt(root, p);
    var c := Get(compNo, p);
    var after := MoveOn(root, compNo, cursor, p, str, rest);
    var kid := Child(p, c);
    rest' := Todo(root, compNo[p := c + 1][kid := 0], kid);
    LeadsSame(root, compNo[p := c + 1], cursor[p := c], kid, 0, 0, kid);
    MoveUp(root, compNo[p := c + 1], cursor[p := c], kid);
    assert rest' == TreeText(t.kids[c]) + after;
    Regroup(str + Lead(t.kind, c) + Label(t.kind, t.kids[c].name), TreeText(t.kids[c]), after);
  }

  lemma Regroup(a: string, b: string, c: string)
    ensures a + b + c == a + (b + c)
  {
  }

  function CloseText(t: Json): string {
    if t.kids == [] then [OpenChar(t.kind), CloseChar(t.kind)] else [CloseChar(t.kind)]
  }

  /** All children are printed: the closing bracket, or both for an empty container. */
  lemma MoveOut(root: Json, compNo: map<Path, nat>, cursor: map<Path, nat>, p: Path, str: string, rest: string)
    requires View(root, compNo, cursor, p) == Ok(rest) && Get(compNo, p) == |NodeAt(root, p).kids|
    ensures str + rest == str + CloseText(NodeAt(root, p)) + AboveText(root, p) && |AboveText(root, p)| < |rest|
    ensures p.Root? ==> AboveText(root, p) == []
    ensures p.Child? ==> View(root, compNo, cursor, p.up) == Ok(AboveText(root, p))
  {
    var t := NodeAt(root, p);
    var close := CloseText(t);
    assert [OpenChar(t.kind)] + [] + [CloseChar(t.kind)] == [OpenChar(t.kind), CloseChar(t.kind)];
    assert [] + [CloseChar(t.kind)] == [CloseChar(t.kind)];
    assert KidsText(t, |t.kids|) == [];
    assert RestText(t, Get(compNo, p)) == close;
    Regroup(str, close, AboveText(root, p));
    if p.Child? { MoveUp(root, compNo, cursor, p); }
  }

  /** The nodes of a tree with their counters and cursors; a field never written is
      still zero. */
  class Document {
    const root: Json
    var compNo: map<Path, nat>
    var cursor: map<Path, nat>

    constructor (root: Json)
      ensures this.root == root
    {
      this.root := root;
      compNo, cursor := map[], map[];
    }

    /** `json_get_first_child`: the cursor stands on the first child, or on the list head. */
    method FirstChild(p: Path) returns (i: Option<nat>)
      requires Valid(root, p)
      modifies this`cursor
      ensures cursor == old(cursor)[p := 0]
      ensures i == if NodeAt(root, p).kids == [] then None else Some(0)
    {
      cursor := cursor[p := 0];
      if |NodeAt(root, p).kids| == 0 { return None; }
      i := Some(0);
    }

    /** `json_get_next_child`: behind the last child the cursor stands on the list head, and
        stays there. */
    method NextChild(p: Path) returns (i: Option<nat>)
      requires Valid(root, p) && p in cursor
      modifies this`cursor
      ensures
        var n := |NodeAt(root, p).kids|;
        var next := old(cursor)[p] + 1;
        if next > n then i == None && cursor == old(cursor)
        else i == (if next < n then Some(next) else None) && cursor == old(cursor)[p := next]
    {
      if cursor[p] >= |NodeAt(root, p).kids| { return None; }
      cursor := cursor[p := cursor[p] + 1];
      i := if cursor[p] < |NodeAt(root, p).kids| then Some(cursor[p]) else None;
    }

    /** The first child, or the next one when `c` children are begun. */
    method TakeChild(p: Path, c: nat) returns (i: nat)
      requires Valid(root, p) && c < |NodeAt(root, p).kids|
      requires c > 0 ==> p in cursor && cursor[p] == c - 1
      modifies this`cursor
      ensures i == c && cursor == old(cursor)[p := c]
    {
      var child: Option<nat>;
      if c == 0 {
        child := FirstChild(p);
      } else {
        child := NextChild(p);
      }
      i := child.value;
    }

    /** One child: its lead, its name, and all of it if it is a leaf; an error if its type was
        never set. */
    method PrintChild(curr: Path, str: string, ghost rest: string)
      returns (ok: bool, curr': Path, str': string, ghost rest': string)
      requires View(root, compNo, cursor, curr) == Ok(rest) && Printable(root)
      requires Get(compNo, curr) < |NodeAt(root, curr).kids|
      modifies this`compNo, this`cursor
      ensures !ok ==> NullTodo(root, old(compNo), curr)
      ensures ok ==> View(root, compNo, cursor, curr') == Ok(rest') && str' + rest' == str + rest && |rest'| < |rest|
      ensures ok ==> (NullTodo(root, compNo, curr') <==> NullTodo(root, old(compNo), curr))
    {
      hide LeafText, TreeText, NullTodo, Printable, View, NullTree;
      OpenView(root, compNo, cursor, curr);
      NullNext(root, compNo, curr);
      var node := NodeAt(root, curr);
      var c := Get(compNo, curr);
      var child := TakeChild(curr, c);
      ok, curr', rest' := true, curr, rest;
      str' := str + Lead(node.kind, c);
      compNo := compNo[curr := c + 1];
      str' := str' + Label(node.kind, node.kids[child].name);
      var kid := node.kids[child];
      PrintableAt(root, Child(curr, child));
      if kid.kind.IsContainer() {
        rest' := MoveDown(root, old(compNo), old(cursor), curr, str, rest);
        curr' := Child(curr, child);
        compNo := compNo[curr' := 0];
      } else {
        rest' := MoveOn(root, old(compNo), old(cursor), curr, str, rest);
        LeafOnly(kid);
        if kid.kind.Null? { return false, curr, str', rest'; }
        var text := PrintLeaf(kid.kind);
        str' := str' + text;
      }
    }

    /** `json_print_str`: the text of the tree, whatever counters and cursors an earlier walk
        left behind; an error exactly if the root is not a container or some child has no type. */
    method Print() returns (r: Result<string>)
      requires Printable(root)
      modifies this`compNo, this`cursor
      ensures r == if root.kind.IsContainer() && !NullFrom(root, 0) then Ok(TreeText(root)) else Err(EINVAL)
    {
      if !root.kind.IsContainer() { return Err(EINVAL); }
      hide TreeText, NullTodo, Printable, NullFrom, Todo, Leads;
      NullStart(root, compNo);
      StartView(root, compNo, cursor);
      var str := [];
      var curr := Root;
      compNo := compNo[curr := 0];
      ghost var rest := TreeText(root);
      assert TreeText(root) + [] == TreeText(root);
      while true
        invariant View(root, compNo, cursor, curr) == Ok(rest)
        invariant str + rest == TreeText(root)
        invariant NullTodo(root, compNo, curr) <==> NullFrom(root, 0)
        decreases |rest|
      {
        OpenView(root, compNo, cursor, curr);
        var node := NodeAt(root, curr);
        if Get(compNo, curr) < |node.kids| {
          var ok;
          ok, curr, str, rest := PrintChild(curr, str, rest);
          if !ok { return Err(EINVAL); }
        } else {
          MoveOut(root, compNo, cursor, curr, str, rest);
          NullOut(root, compNo, curr);
          rest := AboveText(root, curr);
          str := str + CloseText(node);
          if curr == Root {
            assert str + [] == str;
            return Ok(str);
          }
          curr := curr.up;
        }
      }
    }
  }

  lemma OpenView(root: Json, compNo: map<Path, nat>, cursor: map<Path, nat>, p: Path)
    requires View(root, compNo, cursor, p).Ok?
    ensures Valid(root, p) && NodeAt(root, p).kind.IsContainer()
    ensures
      var c := Get(compNo, p);
      c <= |NodeAt(root, p).kids| && (c > 0 ==> p in cursor && cursor[p] == c - 1)
    ensures p.Child? ==> Get(compNo, p.up) == p.i + 1
  {
  }

  lemma StartView(root: Json, compNo: map<Path, nat>, cursor: map<Path, nat>)
    requires root.kind.IsContainer()
    ensures View(root, compNo[Root := 0], cursor, Root) == Ok(TreeText(root))
  {
    assert TreeText(root) + [] == TreeText(root);
  }

  lemma NullStart(root: Json, compNo: map<Path, nat>)
    ensures NullTodo(root, compNo[Root := 0], Root) == NullFrom(root, 0)
  {
  }

  /** The next child of `p` is begun: what of it is to come stays to come. */
  lemma NullNext(root: Json, compNo: map<Path, nat>, p: Path)
    requires Valid(root, p) && Get(compNo, p) < |NodeAt(root, p).kids|
    ensures
      var c := Get(compNo, p);
      var kid := NodeAt(root, p).kids[c];
      && NullTodo(root, compNo, p) == (NullTree(kid) || NullTodo(root, compNo[p := c + 1], p))
      && (kid.kind.IsContainer() ==>
            NullTodo(root, compNo[p := c + 1][Child(p, c) := 0], Child(p, c)) == NullTodo(root, compNo, p))
  {
  }

  /** The last child of `p` is done. */
  lemma NullOut(root: Json, compNo: map<Path, nat>, p: Path)
    requires Valid(root, p) && Get(compNo, p) == |NodeAt(root, p).kids|
    ensures p.Root? ==> !NullTodo(root, compNo, p)
    ensures p.Child? && Get(compNo, p.up) == p.i + 1 ==> NullTodo(root, compNo, p.up) == NullTodo(root, compNo, p)
  {
  }

  lemma {:induction false} PrintableAt(root: Json, p: Path)
    requires Valid(root, p) && Printable(root)
    ensures Printable(NodeAt(root, p))
    decreases p
  {
    if p.Child? { PrintableAt(root, p.up); }
  }

  lemma LeafOnly(t: Json)
    requires !t.kind.IsContainer()
    ensures TreeText(t) == LeafText(t.kind) && NullTree(t) == t.kind.Null?
  {
  }

  /** A leaf value; numbers go through a buffer. */
  method PrintLeaf(kind: Kind) returns (text: string)
    requires !kind.IsContainer() && !kind.Null? && (kind.Number? ==> AsInt(kind.value) != INT_MIN)
    ensures text == LeafText(kind)
  {
    match kind
    case Text(s) => text := ['"'] + Cut(s, 512) + ['"'];
    case Number(v) =>
      DecimalLength(AsInt(v));
      var buffer := new char[12];
      var len := Itoa(AsInt(v), buffer);
      text := buffer[..len];
    case Boolean(v) => text := if v != 0 then "true" else "false";
  }
}
