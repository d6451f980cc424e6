/** The JSON parser (`json_solve_str`) and what it makes of printed trees. */
module JsonParse {
  import opened Base
  import opened Text
  import opened Json

  // ------------------------------------------------------------------------
  // Characters

  predicate IsSplitChar(c: char) { c == ',' || IsIgnoreChar(c) }

  predicate IsIgnoreChar(c: char) { c == ' ' || c == '\r' || c == '\n' || c == '\t' }

  predicate IsValueEnd(c: char) { c == '\0' || c == '}' || c == ']' || IsSplitChar(c) }

  predicate IsDigit(c: char) { '0' <= c <= '9' }

  /** The character at `i`; strings end in a zero character. */
  function CharAt(s: string, i: nat): char { if i < |s| then s[i] else '\0' }

  /** How many characters can be skipped before a colon or a value. */
  function Blanks(s: string, i: nat): (n: nat)
    ensures i <= n <= |s| || n == i
    decreases |s| - i
  {
    if i < |s| && IsIgnoreChar(s[i]) then Blanks(s, i + 1) else i
  }

  // ------------------------------------------------------------------------
  // Leaf values: the value and how many characters it took

  /** `json_get_strvalue` from position `i` on, with `acc` read so far. */
  function StrFrom(s: string, i: nat, acc: string): Result<(string, nat)>
    decreases 1024 - i
  {
    if i >= 1024 then (if i == 1024 then Err(EINVAL) else Ok((acc, i + 1)))
    else if CharAt(s, i) == '"' then Ok((acc, i + 1))
    else if CharAt(s, i) == '\0' then Err(EINVAL)
    else if CharAt(s, i) == '\\' then StrFrom(s, i + 2, acc + [CharAt(s, i + 1)])
    else StrFrom(s, i + 1, acc + [CharAt(s, i)])
  }

  function StrValue(s: string): Result<(string, nat)> {
    if CharAt(s, 0) != '"' then Err(EINVAL) else StrFrom(s, 1, [])
  }

  function DigitValue(c: char): nat
    requires IsDigit(c)
  {
    (c - '0') as nat
  }

  /** The digits of `json_get_numvalue` from position `i` on. */
  function NumFrom(s: string, i: nat, value: nat): Result<(nat, nat)>
    decreases 32 - i
  {
    if i >= 32 || CharAt(s, i) == '\0' then Err(EINVAL)
    else if IsValueEnd(CharAt(s, i)) then Ok((value, i))
    else if !IsDigit(CharAt(s, i)) then Err(EINVAL)
    else NumFrom(s, i + 1, value * 10 + DigitValue(CharAt(s, i)))
  }

  /** `json_get_numvalue`; the low 32 bits of the number go into a zeroed 64 bit field. */
  function NumValue(s: string): Result<(int, nat)> {
    var i := if CharAt(s, 0) == '-' then 1 else 0;
    if !IsDigit(CharAt(s, i)) then Err(EINVAL)
    else
      match NumFrom(s, i + 1, DigitValue(CharAt(s, i)))
      case Err(c) => Err(c)
      case Ok((v, n)) => Ok((LowWord(v, i == 1), n))
  }

  function LowWord(v: nat, negative: bool): int {
    var n: int := v;
    (if negative then -n else n) % 0x1_0000_0000
  }

  predicate StartsWith(s: string, w: string) { |w| <= |s| && s[..|w|] == w }

  /** `json_get_boolvalue`: both words are stored as one. */
  function BoolValue(s: string): Result<(int, nat)> {
    if StartsWith(s, "true") || StartsWith(s, "True") || StartsWith(s, "TRUE") then Ok((1, 4))
    else if StartsWith(s, "false") || StartsWith(s, "False") || StartsWith(s, "FALSE") then Ok((1, 5))
    else Err(EINVAL)
  }

  /** A leaf value; a member of an array may not begin with a minus sign. */
  function LeafValue(s: string, father: Kind): Result<(Kind, nat)> {
    if CharAt(s, 0) == '"' then
      match StrValue(s)
      case Err(c) => Err(c)
      case Ok((t, n)) => if n > (if father.Object? then 770 else 514) then Err(EINVAL) else Ok((Text(t), n))
    else if IsDigit(CharAt(s, 0)) || (father.Object? && CharAt(s, 0) == '-') then
      match NumValue(s)
      case Err(c) => Err(c)
      case Ok((v, n)) => Ok((Number(v), n))
    else
      match BoolValue(s)
      case Err(c) => Err(c)
      case Ok((v, n)) => Ok((Boolean(v), n))
  }

  // ------------------------------------------------------------------------
  // The parser, one iteration of its loop at a time

  /** The open containers; the father of each is the one below it. */
  datatype Stack = Bottom | Open(below: Stack, kind: Kind, name: string, kids: seq<Json>)

  /** What an iteration does: read some characters, end the whole parse, or fail. */
  datatype Move = Go(used: nat, st: Stack) | Finish(used: nat, tree: Json) | Fail(code: int)

  /** A finished container becomes a child of its father. */
  function Closed(st: Stack): Move
    requires st.Open?
  {
    var node := Json(st.kind, st.name, st.kids);
    match st.below
    case Bottom => Finish(1, node)
    case Open(_, _, _, _) => Go(1, Attach(st.below, node))
  }

  function Attach(st: Stack, node: Json): Stack
    requires st.Open?
  {
    st.(kids := st.kids + [node])
  }

  /** The value of a member that begins at `i`. */
  function Value(s: string, i: nat, st: Stack, name: string): Move
    requires st.Open? && i <= |s|
  {
    if CharAt(s, i) == '{' then Go(i + 1, Open(st, Object, name, []))
    else if CharAt(s, i) == '[' then Go(i + 1, Open(st, Array, name, []))
    else
      match LeafValue(s[i..], st.kind)
      case Err(c) => Fail(c)
      case Ok((kind, n)) => if n > 0 && i + n <= |s| then Go(i + n, Attach(st, Json(kind, name, []))) else Fail(EINVAL)
  }

  /** A member of an object: its name, a colon and its value. */
  function Member(s: string, st: Stack): Move
    requires st.Open?
  {
    match StrValue(s)
    case Err(c) => Fail(c)
    case Ok((name, n)) =>
      if n >= 32 then Fail(n)
      else
        var i := Blanks(s, n);
        if CharAt(s, i) != ':' then Fail(EINVAL)
        else Value(s, Blanks(s, i + 1), st, name)
  }

  function Move1(s: string, st: Stack): (m: Move)
    requires s != []
    ensures m.Go? ==> 0 < m.used <= |s|
    ensures m.Finish? ==> m.used == 1
  {
    if IsSplitChar(s[0]) then Go(1, st)
    else if st.Bottom? then
      if s[0] == '{' then Go(1, Open(Bottom, Object, [], []))
      else if s[0] == '[' then Go(1, Open(Bottom, Array, [], []))
      else Fail(EINVAL)
    else if s[0] == CloseChar(st.kind) then Closed(st)
    else if st.kind.Object? then Member(s, st)
    else Value(s, 0, st, [])
  }

  /** The tree at the end of a text that leaves containers open: they are already
      children of their fathers. */
  function Unfinished(st: Stack): Json {
    match st
    case Bottom => Json(Null, [], [])
    case Open(below, kind, name, kids) => UnfinishedIn(below, Json(kind, name, kids))
  }

  function UnfinishedIn(st: Stack, node: Json): Json {
    match st
    case Bottom => node
    case Open(below, kind, name, kids) => UnfinishedIn(below, Json(kind, name, kids + [node]))
  }

  /** The tree and the text behind it. */
  function Parse(s: string, st: Stack): Result<(Json, string)>
    decreases |s|
  {
    if s == [] then Ok((Unfinished(st), []))
    else
      match Move1(s, st)
      case Fail(c) => Err(c)
      case Finish(n, t) => Ok((t, s[n..]))
      case Go(n, st') => Parse(s[n..], st')
  }

  // ------------------------------------------------------------------------
  // Trees that can be printed and read back

  /** Text that needs no escapes and fits the buffers. */
  predicate Clean(s: string, max: nat) {
    |s| <= max && forall k :: 0 <= k < |s| ==> s[k] != '"' && s[k] != '\\' && s[k] != '\0'
  }

  predicate CleanLeaf(kind: Kind) {
    match kind
    case Text(s) => Clean(s, 510)
    case Number(v) => 0 <= v < 0x1_0000_0000 && AsInt(v) != INT_MIN
    case Boolean(_) => true
    case _ => false
  }

  /** A tree as the parser builds them: clean names of at most 29 characters in
      objects, no names in arrays, children only in containers. */
  predicate CleanTree(t: Json) {
    if t.kind.IsContainer() then
      forall k :: 0 <= k < |t.kids| ==>
        CleanTree(t.kids[k]) && (if t.kind.Object? then Clean(t.kids[k].name, 29) else t.kids[k].name == [])
    else CleanLeaf(t.kind) && t.kids == []
  }

  /** A negative number directly in an array. */
  predicate NegativeMember(t: Json, k: nat)
    requires k < |t.kids|
  {
    t.kind.Array? && t.kids[k].kind.Number? && AsInt(t.kids[k].kind.value) < 0
  }

  /** Somewhere in children `k` and on there is one. */
  predicate NegativeFrom(t: Json, k: nat)
    requires k <= |t.kids|
    decreases t, |t.kids| - k
  {
    k < |t.kids| && (NegativeMember(t, k) || NegativeFrom(t.kids[k], 0) || NegativeFrom(t, k + 1))
  }

  /** What the parser makes of a kind: every boolean becomes one. */
  function ReadKind(kind: Kind): Kind {
    match kind
    case Boolean(_) => Boolean(1)
    case _ => kind
  }

  function ReadTree(t: Json): Json
    decreases t, |t.kids| + 1
  {
    Json(ReadKind(t.kind), t.name, ReadKids(t, |t.kids|))
  }

  function ReadKids(t: Json, k: nat): (r: seq<Json>)
    requires k <= |t.kids|
    ensures |r| == k
    decreases t, k
  {
    if k == 0 then [] else ReadKids(t, k - 1) + [ReadTree(t.kids[k - 1])]
  }

  // ------------------------------------------------------------------------
  // Reading back leaves

  lemma {:induction false} CutClean(s: string, n: nat)
    requires Clean(s, n)
    ensures Cut(s, n) == s
  {
    if s != [] { CutClean(s[1..], n - 1); }
  }

  /** A text with a backslash before each quote and each backslash. */
  function Escaped(t: string): string {
    if t == [] then [] else (if t[0] == '"' || t[0] == '\\' then ['\\', t[0]] else [t[0]]) + Escaped(t[1..])
  }

  lemma {:induction false} EscapedClean(t: string)
    requires Clean(t, |t|)
    ensures Escaped(t) == t
  {
    if t != [] { EscapedClean(t[1..]); }
  }

  /** Reading takes the backslashes away again. */
  lemma {:induction false} StrEscaped(pre: string, t: string, tail: string, acc: string)
    requires '\0' !in t && |pre| + |Escaped(t)| < 1024
    ensures StrFrom(pre + Escaped(t) + ['"'] + tail, |pre|, acc) == Ok((acc + t, |pre| + |Escaped(t)| + 1))
    decreases |t|
  {
    var s := pre + Escaped(t) + ['"'] + tail;
    if t == [] {
      assert s[|pre|] == '"' && acc + [] == acc;
    } else {
      var more := Escaped(t[1..]);
      var head := if t[0] == '"' || t[0] == '\\' then ['\\', t[0]] else [t[0]];
      assert Escaped(t) == head + more && s == pre + head + more + ['"'] + tail;
      assert s[|pre|] == head[0] && s[|pre| + |head| - 1] == t[0];
      StrEscaped(pre + head, t[1..], tail, acc + [t[0]]);
      assert acc + [t[0]] + t[1..] == acc + t;
    }
  }

  lemma StrRead(t: string, tail: string)
    requires '\0' !in t && |Escaped(t)| <= 1022
    ensures StrValue(['"'] + Escaped(t) + ['"'] + tail) == Ok((t, |Escaped(t)| + 2))
  {
    StrEscaped(['"'], t, tail, []);
    assert [] + t == t;
  }

  lemma QuotedClean(t: string, tail: string)
    requires Clean(t, 510)
    ensures StrValue(['"'] + t + ['"'] + tail) == Ok((t, |t| + 2))
  {
    EscapedClean(t);
    StrRead(t, tail);
  }

  /** A text is taken up to 768 characters with its escapes in an object, 512 in an array. */
  lemma StringRead(t: string, father: Kind, tail: string)
    requires '\0' !in t && |Escaped(t)| <= 1022
    ensures
      LeafValue(['"'] + Escaped(t) + ['"'] + tail, father) ==
      if |Escaped(t)| <= 512 || (father.Object? && |Escaped(t)| <= 768) then Ok((Text(t), |Escaped(t)| + 2)) else Err(EINVAL)
  {
    StrRead(t, tail);
    assert (['"'] + Escaped(t) + ['"'] + tail)[0] == '"';
  }

  /** A name may take 29 characters with its escapes, 31 with its quotes. */
  lemma NameRefused(t: string, tail: string, st: Stack)
    requires st.Open? && '\0' !in t && 29 < |Escaped(t)| <= 1022
    ensures Member(['"'] + Escaped(t) + ['"'] + tail, st) == Fail(|Escaped(t)| + 2)
  {
    StrRead(t, tail);
  }

  /** The six words for booleans are all read as one, and there are no others. */
  lemma WordsRead(w: string, tail: string)
    requires w in {"true", "True", "TRUE", "false", "False", "FALSE"}
    ensures BoolValue(w + tail) == Ok((1, |w|))
  {
    var s := w + tail;
    assert s[..|w|] == w;
    if |w| == 4 { assert s[0] == 't' || s[0] == 'T'; } else { assert s[0] == 'f' || s[0] == 'F'; }
  }

  lemma WordsOnly(s: string)
    requires forall w | w in {"true", "True", "TRUE", "false", "False", "FALSE"} :: |s| < |w| || s[..|w|] != w
    ensures BoolValue(s) == Err(EINVAL)
  {
  }

  /** The number a digit string stands for, after `v` was read. */
  function NumberOf(d: string, v: nat): nat
    requires forall k :: 0 <= k < |d| ==> IsDigit(d[k])
  {
    if d == [] then v else NumberOf(d[1..], v * 10 + DigitValue(d[0]))
  }

  lemma {:induction false} NumberOfAppend(d: string, c: char, v: nat)
    requires (forall k :: 0 <= k < |d| ==> IsDigit(d[k])) && IsDigit(c)
    ensures NumberOf(d + [c], v) == NumberOf(d, v) * 10 + DigitValue(c)
    decreases |d|
  {
    if d == [] {
      assert [] + [c] == [c];
    } else {
      assert (d + [c])[1..] == d[1..] + [c];
      NumberOfAppend(d[1..], c, v * 10 + DigitValue(d[0]));
    }
  }

  lemma {:induction false} NumberOfDigits(n: nat)
    ensures NumberOf(Digits(n), 0) == n
  {
    if n >= 10 {
      NumberOfDigits(n / 10);
      NumberOfAppend(Digits(n / 10), DigitChar(n % 10), 0);
    } else {
      assert Digits(n) == [DigitChar(n)];
    }
  }

  lemma {:induction false} NumDigits(pre: string, d: string, tail: string, v: nat)
    requires forall k :: 0 <= k < |d| ==> IsDigit(d[k])
    requires |pre| + |d| < 32 && tail != [] && IsValueEnd(tail[0]) && tail[0] != '\0'
    ensures NumFrom(pre + d + tail, |pre|, v) == Ok((NumberOf(d, v), |pre| + |d|))
    decreases |d|
  {
    var s := pre + d + tail;
    if d == [] {
      assert s[|pre|] == tail[0];
    } else {
      assert s[|pre|] == d[0];
      NumDigits(pre + [d[0]], d[1..], tail, v * 10 + DigitValue(d[0]));
      assert pre + [d[0]] + d[1..] + tail == s;
    }
  }

  /** A number must end at a comma, a bracket or a blank. */
  lemma {:induction false} NumRefused(pre: string, d: string, c: char, tail: string, v: nat)
    requires forall k :: 0 <= k < |d| ==> '0' <= d[k] <= '9'
    requires !('0' <= c <= '9') && c !in {',', '}', ']', ' ', '\t', '\n', '\r'}
    ensures NumFrom(pre + d + [c] + tail, |pre|, v) == Err(EINVAL)
    decreases |d|
  {
    var s := pre + d + [c] + tail;
    if d == [] {
      assert s[|pre|] == c;
    } else {
      assert s[|pre|] == d[0];
      NumRefused(pre + [d[0]], d[1..], c, tail, v * 10 + DigitValue(d[0]));
      assert pre + [d[0]] + d[1..] + [c] + tail == s;
    }
  }

  lemma LowWordBack(v: int)
    requires 0 <= v < 0x1_0000_0000
    ensures
      var n := AsInt(v);
      LowWord(if n < 0 then -n else n, n < 0) == v
  {
  }

  lemma DecimalParts(n: int, pre: string, d: string, tail: string)
    requires pre == (if n < 0 then ['-'] else []) && d == Digits(if n < 0 then -n else n)
    ensures pre + d + tail == Decimal(n) + tail && (pre + d + tail)[|pre|] == d[0] && |pre| + |d| == |Decimal(n)|
    ensures CharAt(pre + d + tail, 0) == '-' <==> n < 0
  {
  }

  lemma NumberRead(v: int, tail: string)
    requires CleanLeaf(Number(v)) && tail != [] && IsValueEnd(tail[0]) && tail[0] != '\0'
    ensures NumValue(Decimal(AsInt(v)) + tail) == Ok((v, |Decimal(AsInt(v))|))
  {
    var n := AsInt(v);
    var a: nat := if n < 0 then -n else n;
    var pre := if n < 0 then ['-'] else [];
    IntDigits(a);
    NumberOfDigits(a);
    NumDigits(pre, Digits(a), tail, 0);
    DecimalParts(n, pre, Digits(a), tail);
    LowWordBack(v);
  }

  /** What can come first in the text of a leaf. */
  predicate Starts(c: char) { c == '"' || c == '-' || IsDigit(c) || c == 't' || c == 'f' }

  lemma TextRead(t: string, father: Kind, tail: string)
    requires Clean(t, 510) && father.IsContainer()
    ensures LeafText(Text(t)) != [] && Starts(LeafText(Text(t))[0])
    ensures LeafValue(LeafText(Text(t)) + tail, father) == Ok((Text(t), |LeafText(Text(t))|))
  {
    CutClean(t, 512);
    QuotedClean(t, tail);
    assert ['"'] + t + ['"'] + tail == LeafText(Text(t)) + tail;
  }

  lemma WordRead(v: int, father: Kind, tail: string)
    requires father.IsContainer()
    ensures LeafText(Boolean(v)) != [] && Starts(LeafText(Boolean(v))[0])
    ensures LeafValue(LeafText(Boolean(v)) + tail, father) == Ok((Boolean(1), |LeafText(Boolean(v))|))
  {
    var s := LeafText(Boolean(v)) + tail;
    if v != 0 { assert s[..4] == "true"; } else { assert s[..5] == "false"; }
  }

  lemma FigureRead(v: int, father: Kind, tail: string)
    requires CleanLeaf(Number(v)) && father.IsContainer() && tail != [] && IsValueEnd(tail[0]) && tail[0] != '\0'
    ensures LeafText(Number(v)) != [] && Starts(LeafText(Number(v))[0])
    ensures LeafValue(LeafText(Number(v)) + tail, father) ==
            if father.Array? && AsInt(v) < 0 then Err(EINVAL) else Ok((Number(v), |LeafText(Number(v))|))
  {
    hide NumValue, AsInt;
    NumberRead(v, tail);
    assert CharAt(Decimal(AsInt(v)) + tail, 0) == Decimal(AsInt(v))[0];
  }

  lemma LeafRead(kind: Kind, father: Kind, tail: string)
    requires CleanLeaf(kind) && father.IsContainer() && tail != [] && IsValueEnd(tail[0]) && tail[0] != '\0'
    ensures LeafText(kind) != [] && Starts(LeafText(kind)[0])
    ensures LeafValue(LeafText(kind) + tail, father) ==
            if father.Array? && kind.Number? && AsInt(kind.value) < 0 then Err(EINVAL)
            else Ok((ReadKind(kind), |LeafText(kind)|))
  {
    hide LeafText, LeafValue, Starts;
    match kind
    case Text(t) => TextRead(t, father, tail);
    case Number(v) => FigureRead(v, father, tail);
    case Boolean(v) => WordRead(v, father, tail);
  }

  // ------------------------------------------------------------------------
  // Reading back trees

  /** A container that has read the first `k` children of `t`. */
  function Reading(below: Stack, t: Json, k: nat): Stack
    requires k <= |t.kids|
  {
    Open(below, t.kind, t.name, ReadKids(t, k))
  }

  /** What the parser passes over: spaces, tabs and the two line ends. */
  type Blank = s: string | forall k :: 0 <= k < |s| ==> s[k] == ' ' || s[k] == '\t' || s[k] == '\n' || s[k] == '\r'

  /** Where blanks may stand: before a member, before and behind its colon, behind its
      value, and behind the opening bracket of a container. */
  datatype Gap = Before | BeforeColon | AfterColon | After | Inside

  /** The blanks at each node of a tree. */
  type Gaps = (Path, Gap) -> Blank

  function SpacedLabel(kind: Kind, name: string, p: Path, g: Gaps): string {
    if kind.Object? then ['"'] + Cut(name, 32) + ['"'] + g(p, BeforeColon) + [':'] + g(p, AfterColon) else []
  }

  /** The text of the tree at `p` with these blanks in it. */
  function SpacedTree(t: Json, p: Path, g: Gaps): string
    decreases t, |t.kids| + 1
  {
    if t.kind.IsContainer() then [OpenChar(t.kind)] + g(p, Inside) + SpacedKids(t, 0, p, g) + [CloseChar(t.kind)]
    else LeafText(t.kind)
  }

  function SpacedKids(t: Json, k: nat, p: Path, g: Gaps): string
    requires k <= |t.kids|
    decreases t, |t.kids| - k
  {
    if k == |t.kids| then []
    else
      var q := Child(p, k);
      Comma(k) + g(q, Before) + SpacedLabel(t.kind, t.kids[k].name, q, g) + SpacedTree(t.kids[k], q, g) + g(q, After) +
      SpacedKids(t, k + 1, p, g)
  }

  /** One blank before a token is as good as none. */
  lemma BlankSkipped(c: char, s: string, st: Stack)
    requires c == ' ' || c == '\t' || c == '\n' || c == '\r'
    ensures Parse([c] + s, st) == Parse(s, st)
  {
    assert ([c] + s)[1..] == s;
  }

  /** A tree begins with a bracket; all that may come before it are blanks and commas. */
  lemma StartRefused(c: char, s: string)
    requires c != ' ' && c != '\t' && c != '\n' && c != '\r' && c != ',' && c != '{' && c != '['
    ensures Parse([c] + s, Bottom) == Err(EINVAL)
  {
    assert ([c] + s)[0] == c;
  }

  lemma {:induction false} BlankRead(b: Blank, s: string, st: Stack)
    ensures Parse(b + s, st) == Parse(s, st)
    decreases |b|
  {
    if b == [] {
      assert b + s == s;
    } else {
      assert b + s == [b[0]] + (b[1..] + s);
      BlankSkipped(b[0], b[1..] + s, st);
      BlankRead(b[1..], s, st);
    }
  }

  /** Around a colon blanks are passed over too. */
  lemma {:induction false} BlanksOver(pre: string, b: Blank, rest: string)
    requires rest != [] && !IsIgnoreChar(rest[0])
    ensures Blanks(pre + b + rest, |pre|) == |pre| + |b| && (pre + b + rest)[|pre| + |b|] == rest[0]
    decreases |b|
  {
    if b != [] {
      assert pre + b + rest == pre + [b[0]] + b[1..] + rest;
      BlanksOver(pre + [b[0]], b[1..], rest);
    }
  }

  /** A value, a separator and then the rest of the member list. */
  lemma ValueRead(t: Json, k: nat, below: Stack, pre: string, tail: string)
    requires t.kind.IsContainer() && k < |t.kids| && CleanTree(t) && !t.kids[k].kind.IsContainer()
    requires tail != [] && IsValueEnd(tail[0]) && tail[0] != '\0'
    ensures
      var kid := t.kids[k];
      var text := LeafText(kid.kind);
      && text != [] && Starts(text[0])
      && Value(pre + text + tail, |pre|, Reading(below, t, k), kid.name) ==
         if NegativeMember(t, k) then Fail(EINVAL) else Go(|pre| + |text|, Reading(below, t, k + 1))
  {
    var kid := t.kids[k];
    var text := LeafText(kid.kind);
    assert CleanTree(kid);
    LeafRead(kid.kind, t.kind, tail);
    var s := pre + text + tail;
    assert s[|pre|..] == text + tail && CharAt(s, |pre|) == text[0];
    assert ReadTree(kid) == Json(ReadKind(kid.kind), kid.name, []);
    assert Reading(below, t, k + 1) == Attach(Reading(below, t, k), ReadTree(kid));
    hide LeafText, LeafValue, CleanTree, ReadTree, ReadKids, CharAt, Attach, Reading, AsInt;
  }

  lemma OpenRead(t: Json, k: nat, below: Stack, pre: string, tail: string)
    requires t.kind.IsContainer() && k < |t.kids| && t.kids[k].kind.IsContainer()
    ensures
      var kid := t.kids[k];
      Value(pre + [OpenChar(kid.kind)] + tail, |pre|, Reading(below, t, k), kid.name) ==
      Go(|pre| + 1, Reading(Reading(below, t, k), kid, 0))
  {
  }

  lemma AroundColon(pre: string, x: string, y: string, text: string)
    ensures pre + x + [':'] + y + text == pre + x + ([':'] + y + text)
    ensures pre + x + [':'] + y + text == pre + (x + [':'] + y + text)
    ensures [':'] + y + text != [] && ([':'] + y + text)[0] == ':'
    ensures |pre + x + [':']| == |pre| + |x| + 1
  {
    var z := [':'] + y + text;
    assert pre + x + [':'] + y + text == pre + x + z;
    assert x + [':'] + y + text == x + z;
    assert pre + x + z == pre + (x + z);
  }

  /** How far the parser goes over a colon and the blanks around it. */
  lemma ColonRead(pre: string, x: Blank, y: Blank, text: string)
    requires text != [] && !IsIgnoreChar(text[0])
    ensures
      var s := pre + x + [':'] + y + text;
      && s == pre + (x + [':'] + y + text)
      && Blanks(s, |pre|) == |pre| + |x| && CharAt(s, |pre| + |x|) == ':'
      && Blanks(s, |pre| + |x| + 1) == |pre| + |x| + 1 + |y|
  {
    AroundColon(pre, x, y, text);
    var z, head := [':'] + y + text, pre + x + [':'];
    hide Blanks;
    BlanksOver(pre, x, z);
    BlanksOver(head, y, text);
  }

  lemma MemberRead(name: string, st: Stack, s: string, n: nat, x: nat, y: nat)
    requires st.Open? && n < 32 && StrValue(s) == Ok((name, n)) && n + x + 1 + y <= |s|
    requires Blanks(s, n) == n + x && CharAt(s, n + x) == ':' && Blanks(s, n + x + 1) == n + x + 1 + y
    ensures Member(s, st) == Value(s, n + x + 1 + y, st, name)
  {
    hide StrValue, Blanks, Value, CharAt;
  }

  lemma LabelShape(name: string, p: Path, g: Gaps)
    requires Clean(name, 29)
    ensures
      var label' := SpacedLabel(Object, name, p, g);
      && label' == (['"'] + name + ['"']) + g(p, BeforeColon) + [':'] + g(p, AfterColon)
      && label' != [] && label'[0] == '"' && |label'| == |name| + 3 + |g(p, BeforeColon)| + |g(p, AfterColon)|
  {
    CutClean(name, 32);
  }

  lemma Named(s: string, st: Stack)
    requires st.Open? && st.kind.Object? && s != [] && s[0] == '"'
    ensures Move1(s, st) == Member(s, st)
  {
    hide Member;
  }

  lemma QuotedName(s: string, quoted: string, name: string, rest: string)
    requires Clean(name, 29) && quoted == ['"'] + name + ['"'] && s == quoted + rest
    ensures StrValue(s) == Ok((name, |name| + 2)) && |quoted| == |name| + 2
  {
    QuotedClean(name, rest);
  }

  lemma NamedMember(quoted: string, name: string, x: Blank, y: Blank, text: string, st: Stack)
    requires st.Open? && Clean(name, 29) && quoted == ['"'] + name + ['"'] && text != [] && !IsIgnoreChar(text[0])
    ensures
      var s := quoted + x + [':'] + y + text;
      Member(s, st) == Value(s, |quoted| + |x| + 1 + |y|, st, name)
  {
    var s := quoted + x + [':'] + y + text;
    assert |name| < 30;
    hide StrValue, Blanks, Value, Member, Clean, CharAt;
    ColonRead(quoted, x, y, text);
    QuotedName(s, quoted, name, x + [':'] + y + text);
    MemberRead(name, st, s, |quoted|, |x|, |y|);
  }

  /** The name of a member, with blanks around its colon: the parser is led to its value. */
  lemma LabelRead(name: string, st: Stack, p: Path, g: Gaps, text: string)
    requires st.Open? && st.kind.Object? && Clean(name, 29) && text != [] && (Starts(text[0]) || text[0] == '{' || text[0] == '[')
    ensures
      var label' := SpacedLabel(Object, name, p, g);
      && label' != [] && label'[0] == '"'
      && Move1(label' + text, st) == Value(label' + text, |label'|, st, name)
  {
    assert !IsIgnoreChar(text[0]);
    hide Value, Member, SpacedLabel, Clean, Move1, IsIgnoreChar, Starts;
    LabelShape(name, p, g);
    NamedMember(['"'] + name + ['"'], name, g(p, BeforeColon), g(p, AfterColon), text, st);
    Named(SpacedLabel(Object, name, p, g) + text, st);
  }

  /** The head of member `k`: the parser comes to its value in one iteration. */
  lemma HeadRead(t: Json, k: nat, below: Stack, p: Path, g: Gaps, text: string)
    requires t.kind.IsContainer() && k < |t.kids| && CleanTree(t)
    requires text != [] && (Starts(text[0]) || text[0] == '{' || text[0] == '[')
    ensures
      var head := SpacedLabel(t.kind, t.kids[k].name, p, g);
      Move1(head + text, Reading(below, t, k)) == Value(head + text, |head|, Reading(below, t, k), t.kids[k].name)
  {
    assert CleanTree(t.kids[k]);
    if t.kind.Object? {
      LabelRead(t.kids[k].name, Reading(below, t, k), p, g, text);
    } else {
      assert [] + text == text;
    }
  }

  lemma CommaRead(k: nat, s: string, st: Stack)
    ensures Parse(Comma(k) + s, st) == Parse(s, st)
  {
    if k > 0 {
      assert ([','] + s)[1..] == s;
    } else {
      assert [] + s == s;
    }
  }

  lemma GoRead(a: string, b: string, st: Stack, st': Stack)
    requires a != [] && Move1(a + b, st) == Go(|a|, st')
    ensures Parse(a + b, st) == Parse(b, st')
  {
    assert (a + b)[|a|..] == b;
  }

  lemma Pieces(head: string, text: string, tail: string)
    requires text != []
    ensures text + tail != [] && (text + tail)[0] == text[0]
    ensures head + (text + tail) == head + text + tail && head + text != [] && head + text + tail != []
  {
  }

  lemma FailRead(s: string, st: Stack, c: int)
    requires s != [] && Move1(s, st) == Fail(c)
    ensures Parse(s, st) == Err(c)
  {
    hide Move1;
  }

  /** The text of member `k` that is a leaf, and of the separator behind it. */
  lemma LeafMember(t: Json, k: nat, below: Stack, p: Path, g: Gaps, tail: string)
    requires t.kind.IsContainer() && k < |t.kids| && CleanTree(t) && !t.kids[k].kind.IsContainer()
    requires tail != [] && IsValueEnd(tail[0]) && tail[0] != '\0'
    ensures
      Parse(SpacedLabel(t.kind, t.kids[k].name, p, g) + LeafText(t.kids[k].kind) + tail, Reading(below, t, k)) ==
      if NegativeMember(t, k) then Err(EINVAL) else Parse(tail, Reading(below, t, k + 1))
  {
    var head, text := SpacedLabel(t.kind, t.kids[k].name, p, g), LeafText(t.kids[k].kind);
    hide SpacedLabel, LeafText, Value, Move1, CleanTree, NegativeMember, Reading, Parse, ReadTree;
    ValueRead(t, k, below, head, tail);
    Pieces(head, text, tail);
    HeadRead(t, k, below, p, g, text + tail);
    if NegativeMember(t, k) {
      FailRead(head + text + tail, Reading(below, t, k), EINVAL);
    } else {
      GoRead(head + text, tail, Reading(below, t, k), Reading(below, t, k + 1));
    }
  }

  /** The opening bracket of member `k`. */
  lemma OpenMember(t: Json, k: nat, below: Stack, p: Path, g: Gaps, inner: string)
    requires t.kind.IsContainer() && k < |t.kids| && CleanTree(t) && t.kids[k].kind.IsContainer()
    ensures
      var kid := t.kids[k];
      Parse(SpacedLabel(t.kind, kid.name, p, g) + [OpenChar(kid.kind)] + inner, Reading(below, t, k)) ==
      Parse(inner, Reading(Reading(below, t, k), kid, 0))
  {
    var head, text := SpacedLabel(t.kind, t.kids[k].name, p, g), [OpenChar(t.kids[k].kind)];
    hide OpenChar, SpacedLabel, Parse, CleanTree;
    OpenRead(t, k, below, head, inner);
    HeadRead(t, k, below, p, g, text + inner);
    assert head + (text + inner) == head + text + inner;
    GoRead(head + text, inner, Reading(below, t, k), Reading(Reading(below, t, k), t.kids[k], 0));
  }

  /** The closing bracket of member `k`. */
  lemma CloseMember(t: Json, k: nat, below: Stack, tail: string)
    requires t.kind.IsContainer() && k < |t.kids| && t.kids[k].kind.IsContainer()
    ensures
      var kid := t.kids[k];
      Parse([CloseChar(kid.kind)] + tail, Reading(Reading(below, t, k), kid, |kid.kids|)) ==
      Parse(tail, Reading(below, t, k + 1))
  {
    var kid := t.kids[k];
    assert ReadTree(kid) == Json(kid.kind, kid.name, ReadKids(kid, |kid.kids|));
    GoRead([CloseChar(kid.kind)], tail, Reading(Reading(below, t, k), kid, |kid.kids|), Reading(below, t, k + 1));
  }

  /** Behind a value come blanks, a comma or a closing bracket. */
  lemma TailShape(t: Json, k: nat, p: Path, g: Gaps, b: Blank, rest: string)
    requires k <= |t.kids| && k > 0
    ensures
      var tail := b + (SpacedKids(t, k, p, g) + [CloseChar(t.kind)] + rest);
      tail != [] && IsValueEnd(tail[0]) && tail[0] != '\0'
  {
    var more := SpacedKids(t, k, p, g) + [CloseChar(t.kind)] + rest;
    if k < |t.kids| {
      assert SpacedKids(t, k, p, g)[0] == ',';
    } else {
      assert more[0] == CloseChar(t.kind);
    }
    assert (b + more)[0] == if b == [] then more[0] else b[0];
  }

  lemma KidsTextStep(t: Json, k: nat, p: Path, g: Gaps, rest: string)
    requires k < |t.kids|
    ensures
      var q := Child(p, k);
      SpacedKids(t, k, p, g) + [CloseChar(t.kind)] + rest ==
      Comma(k) + (g(q, Before) + (SpacedLabel(t.kind, t.kids[k].name, q, g) + SpacedTree(t.kids[k], q, g) +
      (g(q, After) + (SpacedKids(t, k + 1, p, g) + [CloseChar(t.kind)] + rest))))
  {
    var q := Child(p, k);
    Regroup(Comma(k), g(q, Before), SpacedLabel(t.kind, t.kids[k].name, q, g), SpacedTree(t.kids[k], q, g),
            g(q, After), SpacedKids(t, k + 1, p, g), [CloseChar(t.kind)] + rest);
    var all, z := SpacedKids(t, k, p, g), [CloseChar(t.kind)];
    assert all + z + rest == all + (z + rest);
    assert SpacedKids(t, k + 1, p, g) + z + rest == SpacedKids(t, k + 1, p, g) + (z + rest);
  }

  lemma Regroup(c: string, b: string, h: string, x: string, a: string, y: string, z: string)
    ensures (c + b + h + x + a + y) + z == c + (b + (h + x + (a + (y + z))))
  {
    assert (c + b + h + x + a + y) + z == (c + b + h + x + a) + (y + z);
    assert (c + b + h + x + a) + (y + z) == (c + b + h + x) + (a + (y + z));
    assert (c + b + h + x) + (a + (y + z)) == (c + b) + (h + x + (a + (y + z)));
    assert (c + b) + (h + x + (a + (y + z))) == c + (b + (h + x + (a + (y + z))));
  }

  /** A container that has read the children before `k` reads the others too, up to
      its closing bracket, unless one of them holds a negative array member. */
  lemma {:induction false} KidsRead(t: Json, k: nat, below: Stack, p: Path, g: Gaps, rest: string)
    requires t.kind.IsContainer() && k <= |t.kids| && CleanTree(t)
    ensures
      Parse(SpacedKids(t, k, p, g) + [CloseChar(t.kind)] + rest, Reading(below, t, k)) ==
      if NegativeFrom(t, k) then Err(EINVAL) else Parse([CloseChar(t.kind)] + rest, Reading(below, t, |t.kids|))
    decreases t, |t.kids| - k
  {
    if k == |t.kids| {
      assert [] + [CloseChar(t.kind)] + rest == [CloseChar(t.kind)] + rest;
    } else {
      var kid, q := t.kids[k], Child(p, k);
      var more := SpacedKids(t, k + 1, p, g) + [CloseChar(t.kind)] + rest;
      var tail := g(q, After) + more;
      var text := SpacedLabel(t.kind, kid.name, q, g) + SpacedTree(kid, q, g) + tail;
      KidsTextStep(t, k, p, g, rest);
      CommaRead(k, g(q, Before) + text, Reading(below, t, k));
      BlankRead(g(q, Before), text, Reading(below, t, k));
      TailShape(t, k + 1, p, g, g(q, After), rest);
      KidsRead(t, k + 1, below, p, g, rest);
      BlankRead(g(q, After), more, Reading(below, t, k + 1));
      assert CleanTree(kid);
      if kid.kind.IsContainer() {
        BracketText(SpacedLabel(t.kind, kid.name, q, g), kid, q, g, tail);
        var inner := SpacedKids(kid, 0, q, g) + [CloseChar(kid.kind)] + tail;
        OpenMember(t, k, below, q, g, g(q, Inside) + inner);
        BlankRead(g(q, Inside), inner, Reading(Reading(below, t, k), kid, 0));
        KidsRead(kid, 0, Reading(below, t, k), q, g, tail);
        CloseMember(t, k, below, tail);
      } else {
        LeafMember(t, k, below, q, g, tail);
      }
    }
  }

  lemma BracketText(head: string, kid: Json, p: Path, g: Gaps, tail: string)
    requires kid.kind.IsContainer()
    ensures head + SpacedTree(kid, p, g) + tail ==
            head + [OpenChar(kid.kind)] + (g(p, Inside) + (SpacedKids(kid, 0, p, g) + [CloseChar(kid.kind)] + tail))
  {
    var o, i, x, c := [OpenChar(kid.kind)], g(p, Inside), SpacedKids(kid, 0, p, g), [CloseChar(kid.kind)];
    assert head + (o + i + x + c) + tail == head + o + (i + (x + c + tail));
  }

  lemma OpenRoot(t: Json, inner: string)
    requires t.kind.IsContainer() && t.name == []
    ensures Move1([OpenChar(t.kind)] + inner, Bottom) == Go(1, Reading(Bottom, t, 0))
  {
  }

  lemma CloseRoot(t: Json, rest: string)
    requires t.kind.IsContainer()
    ensures Parse([CloseChar(t.kind)] + rest, Reading(Bottom, t, |t.kids|)) == Ok((ReadTree(t), rest))
  {
    assert ([CloseChar(t.kind)] + rest)[1..] == rest;
  }

  /** Exactly what the parser makes of the text of a tree, whatever blanks stand between
      its tokens and whatever follows it: it stops behind the tree and gives back the
      tree with every boolean set to one, and it refuses trees with a negative number
      directly in an array. */
  lemma SpacedRead(t: Json, g: Gaps, rest: string)
    requires t.kind.IsContainer() && CleanTree(t) && t.name == []
    ensures
      Parse(g(Root, Before) + SpacedTree(t, Root, g) + rest, Bottom) ==
      if NegativeFrom(t, 0) then Err(EINVAL) else Ok((ReadTree(t), rest))
  {
    var text := SpacedTree(t, Root, g) + rest;
    var inner := SpacedKids(t, 0, Root, g) + [CloseChar(t.kind)] + rest;
    var o := [OpenChar(t.kind)];
    BracketText([], t, Root, g, rest);
    assert [] + SpacedTree(t, Root, g) == SpacedTree(t, Root, g) && [] + o == o;
    assert g(Root, Before) + SpacedTree(t, Root, g) + rest == g(Root, Before) + text;
    BlankRead(g(Root, Before), text, Bottom);
    OpenRoot(t, g(Root, Inside) + inner);
    hide SpacedKids, SpacedTree, CleanTree, Move1, NegativeFrom;
    GoRead(o, g(Root, Inside) + inner, Bottom, Reading(Bottom, t, 0));
    BlankRead(g(Root, Inside), inner, Reading(Bottom, t, 0));
    KidsRead(t, 0, Bottom, Root, g, rest);
    CloseRoot(t, rest);
  }

  /** The printer puts no blanks. */
  function NoGap(p: Path, gap: Gap): Blank { [] }

  lemma {:induction false} PrintedTree(t: Json, p: Path)
    ensures SpacedTree(t, p, NoGap) == TreeText(t)
    decreases t, |t.kids| + 1
  {
    if t.kind.IsContainer() {
      PrintedKids(t, 0, p);
      assert [OpenChar(t.kind)] + [] + KidsText(t, 0) == [OpenChar(t.kind)] + KidsText(t, 0);
    }
  }

  lemma {:induction false} PrintedKids(t: Json, k: nat, p: Path)
    requires k <= |t.kids|
    ensures SpacedKids(t, k, p, NoGap) == KidsText(t, k)
    decreases t, |t.kids| - k
  {
    if k < |t.kids| {
      PrintedTree(t.kids[k], Child(p, k));
      PrintedKids(t, k + 1, p);
      PrintedLabel(t.kind, t.kids[k].name, Child(p, k));
      var h, x := Label(t.kind, t.kids[k].name), TreeText(t.kids[k]);
      assert Comma(k) + [] + h + x + [] == Comma(k) + h + x;
    }
  }

  lemma PrintedLabel(kind: Kind, name: string, p: Path)
    ensures SpacedLabel(kind, name, p, NoGap) == Label(kind, name)
  {
  }

  /** The same for the text as it is printed. */
  lemma PrintedRead(t: Json, rest: string)
    requires t.kind.IsContainer() && CleanTree(t) && t.name == []
    ensures Parse(TreeText(t) + rest, Bottom) == if NegativeFrom(t, 0) then Err(EINVAL) else Ok((ReadTree(t), rest))
  {
    hide TreeText, SpacedTree, Parse, CleanTree, NegativeFrom, ReadTree;
    PrintedTree(t, Root);
    SpacedRead(t, NoGap, rest);
    assert [] + TreeText(t) + rest == TreeText(t) + rest;
  }

  predicate TrueOnly(t: Json) {
    (t.kind.Boolean? ==> t.kind.value == 1) && forall k :: 0 <= k < |t.kids| ==> TrueOnly(t.kids[k])
  }

  lemma {:induction false} ReadKidsAt(t: Json, n: nat, k: nat)
    requires k < n <= |t.kids|
    ensures ReadKids(t, n)[k] == ReadTree(t.kids[k])
    decreases n
  {
    if k < n - 1 { ReadKidsAt(t, n - 1, k); }
  }

  lemma {:induction false} ReadSame(t: Json)
    ensures ReadTree(t) == t <==> TrueOnly(t)
  {
    var r := ReadKids(t, |t.kids|);
    forall k | 0 <= k < |t.kids| ensures r[k] == t.kids[k] <==> TrueOnly(t.kids[k]) {
      ReadKidsAt(t, |t.kids|, k);
      ReadSame(t.kids[k]);
    }
    if TrueOnly(t) { assert r == t.kids; }
  }

  /** Parsing undoes printing exactly for the trees without negative numbers
      directly in arrays and without false booleans. */
  lemma RoundTrip(t: Json, rest: string)
    requires t.kind.IsContainer() && CleanTree(t) && t.name == []
    ensures Parse(TreeText(t) + rest, Bottom) == Ok((t, rest)) <==> !NegativeFrom(t, 0) && TrueOnly(t)
  {
    PrintedRead(t, rest);
    ReadSame(t);
  }

  lemma MinusOne()
    ensures LeafText(Number(0xffff_ffff)) == "-1"
  {
    assert AsInt(0xffff_ffff) == -1;
    assert Digits(1) == "1";
  }

  lemma OneMember(kid: Json)
    ensures TreeText(Json(Array, "", [kid])) == ['['] + TreeText(kid) + [']']
  {
    hide LeafText;
    var t := Json(Array, "", [kid]);
    assert KidsText(t, 1) == [];
    assert KidsText(t, 0) == [] + [] + TreeText(kid) + [] == TreeText(kid);
  }

  lemma NegativeText()
    ensures TreeText(Json(Array, "", [Json(Number(0xffff_ffff), "", [])])) == "[-1]"
  {
    var kid := Json(Number(0xffff_ffff), "", []);
    assert TreeText(kid) == LeafText(kid.kind);
    hide LeafText, TreeText, KidsText;
    MinusOne();
    OneMember(kid);
  }

  /** The array of the number -1 is printed as `[-1]`, which is an error to the parser. */
  lemma NegativeExample()
    ensures
      var t := Json(Array, "", [Json(Number(0xffff_ffff), "", [])]);
      && CleanTree(t) && NegativeFrom(t, 0)
      && TreeText(t) == "[-1]" && Parse("[-1]", Bottom) == Err(EINVAL)
  {
    hide TreeText, Parse;
    var t := Json(Array, "", [Json(Number(0xffff_ffff), "", [])]);
    NegativeText();
    assert NegativeMember(t, 0);
    PrintedRead(t, "");
    assert TreeText(t) + "" == TreeText(t);
  }

  /** An object that holds false comes back holding true. */
  lemma FalseExample()
    ensures
      var t := Json(Object, "", [Json(Boolean(0), "a", [])]);
      && CleanTree(t) && !TrueOnly(t)
      && Parse(TreeText(t), Bottom) == Ok((Json(Object, "", [Json(Boolean(1), "a", [])]), ""))
  {
    var kid := Json(Boolean(0), "a", []);
    var t := Json(Object, "", [kid]);
    assert !TrueOnly(kid) && kid == t.kids[0];
    assert !NegativeMember(t, 0) && !NegativeFrom(kid, 0) && !NegativeFrom(t, 1);
    PrintedRead(t, "");
    assert TreeText(t) + "" == TreeText(t);
    assert ReadKids(kid, 0) == [] && ReadTree(kid) == Json(Boolean(1), "a", []);
    assert ReadKids(t, 0) == [] && ReadKids(t, 1) == [ReadTree(kid)];
  }

  // ------------------------------------------------------------------------
  // The loops

  /** The loop of `json_get_strvalue`. */
  method GetStrValue(s: string) returns (r: Result<(string, nat)>)
    ensures r == StrValue(s)
  {
    if CharAt(s, 0) != '"' { return Err(EINVAL); }
    var i := 1;
    var buf := [];
    while i < 1024
      invariant 1 <= i
      invariant StrFrom(s, i, buf) == StrValue(s)
    {
      if CharAt(s, i) == '"' { break; }
      if CharAt(s, i) == '\0' { return Err(EINVAL); }
      if CharAt(s, i) == '\\' {
        i := i + 1;
      }
      buf := buf + [CharAt(s, i)];
      i := i + 1;
    }
    if i == 1024 { return Err(EINVAL); }
    r := Ok((buf, i + 1));
  }

  /** The loop of `json_get_numvalue`. */
  method GetNumValue(s: string) returns (r: Result<(int, nat)>)
    ensures r == NumValue(s)
  {
    var i := 0;
    var value: nat := 0;
    var negative := false;
    if CharAt(s, 0) != '.' {
      if CharAt(s, 0) == '-' { negative, i := true, 1; }
      if !IsDigit(CharAt(s, i)) { return Err(EINVAL); }
      value := DigitValue(CharAt(s, i));
      i := i + 1;
    }
    ghost var all := NumFrom(s, i, value);
    while i < 32
      invariant 0 <= i <= 32
      invariant NumFrom(s, i, value) == all
    {
      if CharAt(s, i) == '\0' { return Err(EINVAL); }
      if IsValueEnd(CharAt(s, i)) { break; }
      if !IsDigit(CharAt(s, i)) { return Err(EINVAL); }
      value := value * 10 + DigitValue(CharAt(s, i));
      i := i + 1;
    }
    if i == 32 { return Err(EINVAL); }
    r := Ok((LowWord(value, negative), i));
  }

  /** Clean trees have neither untyped children nor the smallest `int`. */
  lemma {:induction false} CleanPrintable(t: Json)
    requires CleanTree(t)
    ensures Printable(t) && !NullTree(t)
    ensures t.kind.IsContainer() ==> !NullFrom(t, 0)
  {
    forall k | 0 <= k < |t.kids|
      ensures Printable(t.kids[k]) && !NullTree(t.kids[k])
    {
      CleanPrintable(t.kids[k]);
    }
    NoNull(t, |t.kids|);
  }

  lemma {:induction false} NoNull(t: Json, n: nat)
    requires n <= |t.kids| && forall k :: 0 <= k < |t.kids| ==> !NullTree(t.kids[k])
    ensures !NullFrom(t, |t.kids| - n)
  {
    if n > 0 { NoNull(t, n - 1); }
  }
}
