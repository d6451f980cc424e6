/** The hash list of basefunc.c: 256 or 1024 rings of records, against a plain list in
    the order of insertion. */
module HashList {
  import opened Base
  import opened Lists

  const DIGEST: nat := 32

  /** Four bytes as an unsigned int, least significant first. */
  function WordAt(k: Key, i: nat): (w: nat)
    requires i < 8
  {
    k[4 * i] + 0x100 * k[4 * i + 1] + 0x1_0000 * k[4 * i + 2] + 0x100_0000 * k[4 * i + 3]
  }

  /** `get_hash_subindex` takes the first byte, `get_hash_index` ten bits of the first word. */
  function Index(num: nat, k: Key): (i: nat)
    ensures num == 256 || num == 1024 ==> i < num
  {
    if num == 256 then k[0] % 256 else WordAt(k, 0) % 1024
  }

  lemma Beyond(a: int, q: int)
    requires 0 <= a < 1024
    ensures (a + 1024 * q) % 1024 == a
  {
  }

  /** The bucket is the first byte of the key, or its first ten bits. */
  lemma IndexExact(k: Key)
    ensures Index(256, k) == k[0] && Index(1024, k) == k[0] + 0x100 * (k[1] % 4)
  {
    var b0: int, b1: int, b2: int, b3: int := k[0], k[1], k[2], k[3];
    Beyond(b0 + 0x100 * (b1 % 4), b1 / 4 + 0x40 * b2 + 0x4000 * b3);
    assert b1 == 4 * (b1 / 4) + b1 % 4;
  }

  lemma LowByte(a: int, x: int, b: int, y: int)
    requires 0 <= a < 256 && 0 <= b < 256 && a + 0x100 * x == b + 0x100 * y
    ensures a == b && x == y
  {
  }

  lemma WordsDiffer(a: Key, b: Key, i: nat)
    requires i < 8 && WordAt(a, i) == WordAt(b, i)
    ensures a[4 * i] == b[4 * i] && a[4 * i + 1] == b[4 * i + 1] && a[4 * i + 2] == b[4 * i + 2] && a[4 * i + 3] == b[4 * i + 3]
  {
    var k := 4 * i;
    LowByte(a[k], a[k + 1] + 0x100 * a[k + 2] + 0x1_0000 * a[k + 3], b[k], b[k + 1] + 0x100 * b[k + 2] + 0x1_0000 * b[k + 3]);
    LowByte(a[k + 1], a[k + 2] + 0x100 * a[k + 3], b[k + 1], b[k + 2] + 0x100 * b[k + 3]);
    LowByte(a[k + 2], a[k + 3], b[k + 2], b[k + 3]);
  }

  /** `comp_uuid`: the order of the first word in which the keys differ, and zero exactly for
      equal keys. */
  method CompUuid(a: Key, b: Key) returns (r: int)
    ensures r == 0 <==> a == b
    ensures r > 0 ==> exists i :: 0 <= i < 8 && a[..4 * i] == b[..4 * i] && WordAt(a, i) > WordAt(b, i)
    ensures r < 0 ==> exists i :: 0 <= i < 8 && a[..4 * i] == b[..4 * i] && WordAt(a, i) < WordAt(b, i)
  {
    hide WordAt;
    var i := 0;
    while i < 8
      invariant i <= 8 && forall k :: 0 <= k < 4 * i ==> a[k] == b[k]
    {
      if WordAt(a, i) > WordAt(b, i) { return 1; }
      if WordAt(a, i) < WordAt(b, i) { return -1; }
      WordsDiffer(a, b, i);
      i := i + 1;
    }
    assert a == b;
    r := 0;
  }

  // ------------------------------------------------------------------------
  // The plain list

  ghost predicate HasKey(c: Cell, k: Key) { c.slot.Item? && c.slot.elem.key == k }

  /** The first cell with the key, in the order of the list. */
  ghost function FindFirst(cs: seq<Cell>, k: Key): Option<Cell> {
    if cs == [] then None else if HasKey(cs[0], k) then Some(cs[0]) else FindFirst(cs[1..], k)
  }

  ghost function RemoveFirst(cs: seq<Cell>, k: Key): seq<Cell> {
    if cs == [] then [] else if HasKey(cs[0], k) then cs[1..] else [cs[0]] + RemoveFirst(cs[1..], k)
  }

  ghost predicate In(num: nat, c: Cell, i: nat) { c.slot.Item? && Index(num, c.slot.elem.key) == i }

  /** The cells of bucket `i`, in the order of the list. */
  ghost function Bucket(num: nat, cs: seq<Cell>, i: nat): (r: seq<Cell>)
    ensures forall j :: 0 <= j < |r| ==> r[j] in cs && In(num, r[j], i)
  {
    if cs == [] then []
    else if In(num, cs[0], i) then [cs[0]] + Bucket(num, cs[1..], i)
    else Bucket(num, cs[1..], i)
  }

  ghost predicate Distinct(cs: seq<Cell>) { forall i, j :: 0 <= i < j < |cs| ==> cs[i] != cs[j] }

  lemma {:induction false} BucketAppend(num: nat, cs: seq<Cell>, c: Cell, i: nat)
    ensures Bucket(num, cs + [c], i) == if In(num, c, i) then Bucket(num, cs, i) + [c] else Bucket(num, cs, i)
  {
    hide In;
    var all := cs + [c];
    if cs == [] {
      assert all[1..] == [];
    } else {
      assert all[1..] == cs[1..] + [c];
      BucketAppend(num, cs[1..], c, i);
    }
  }

  /** The first match of the bucket is the first match of the list. */
  lemma {:induction false} BucketFind(num: nat, cs: seq<Cell>, k: Key)
    ensures FindFirst(Bucket(num, cs, Index(num, k)), k) == FindFirst(cs, k)
  {
    hide Index;
    if cs != [] {
      BucketFind(num, cs[1..], k);
      var rest := Bucket(num, cs[1..], Index(num, k));
      assert ([cs[0]] + rest)[1..] == rest;
    }
  }

  lemma {:induction false} BucketRemove(num: nat, cs: seq<Cell>, k: Key, i: nat)
    ensures Bucket(num, RemoveFirst(cs, k), i) ==
            if i == Index(num, k) then RemoveFirst(Bucket(num, cs, i), k) else Bucket(num, cs, i)
  {
    hide Index;
    if cs != [] {
      BucketRemove(num, cs[1..], k, i);
      var rest := Bucket(num, cs[1..], i);
      assert ([cs[0]] + rest)[1..] == rest;
      assert ([cs[0]] + RemoveFirst(cs[1..], k))[1..] == RemoveFirst(cs[1..], k);
    }
  }

  lemma {:induction false} RemoveAt(cs: seq<Cell>, k: Key, p: nat)
    requires p < |cs| && HasKey(cs[p], k) && forall j :: 0 <= j < p ==> !HasKey(cs[j], k)
    ensures FindFirst(cs, k) == Some(cs[p]) && RemoveFirst(cs, k) == cs[..p] + cs[p + 1..]
  {
    hide HasKey;
    if p > 0 {
      var rest := cs[1..];
      assert rest[p - 1] == cs[p] && forall j :: 0 <= j < p - 1 ==> rest[j] == cs[j + 1];
      RemoveAt(rest, k, p - 1);
      Behind(cs, p);
    }
  }

  lemma Behind(cs: seq<Cell>, p: nat)
    requires 0 < p < |cs|
    ensures [cs[0]] + (cs[1..][..p - 1] + cs[1..][p..]) == cs[..p] + cs[p + 1..]
  {
    assert cs[1..][..p - 1] == cs[1..p] && cs[1..][p..] == cs[p + 1..];
  }

  lemma {:induction false} FindNone(cs: seq<Cell>, k: Key)
    requires forall j :: 0 <= j < |cs| ==> !HasKey(cs[j], k)
    ensures FindFirst(cs, k) == None && RemoveFirst(cs, k) == cs
  {
    if cs != [] {
      FindNone(cs[1..], k);
    }
  }

  // ------------------------------------------------------------------------
  // The list in the heap

  class HashList {
    const num: nat
    const heads: seq<Cell>
    var currIndex: nat
    var currHead: Cell?
    ghost var all: seq<Cell>
    ghost var currPos: nat

    /** Every bucket is a ring of the cells that belong to it. */
    ghost predicate Valid()
      reads this, heads, all
    {
      && Shape()
      && (forall i :: 0 <= i < num ==> Ring(heads[i], Bucket(num, all, i)))
    }

    ghost predicate Shape()
      reads this, heads, all
    {
      && |heads| == num && Distinct(heads) && Distinct(all)
      && (forall i :: 0 <= i < num ==> heads[i].slot.Head?)
      && (forall i :: 0 <= i < |all| ==> all[i].slot.Item?)
    }

    /** A list of `num` empty rings. */
    constructor (num: nat)
      ensures Valid() && this.num == num && all == [] && fresh(heads) && currHead == null
    {
      hide Apart, Linked;
      var hs: seq<Cell> := [];
      for i := 0 to num
        invariant |hs| == i && Distinct(hs)
        invariant forall k :: 0 <= k < i ==> fresh(hs[k]) && hs[k].slot.Head? && Ring(hs[k], [])
      {
        var h := new Cell(Head);
        hs := hs + [h];
      }
      this.num := num;
      heads := hs;
      all := [];
      currIndex, currHead, currPos := 0, null, 0;
    }

    predicate Sized() { num == 256 || num == 1024 }

    /** `list_find_uuidelem` on the bucket of the key. */
    method FindCell(k: Key) returns (c: Cell?, ghost p: nat)
      requires Valid()
      ensures !Sized() ==> c == null
      ensures Sized() && c == null ==> FindFirst(all, k) == None
      ensures c != null ==> Sized() && FindFirst(all, k) == Some(c)
      ensures c != null ==>
        var cells := Bucket(num, all, Index(num, k));
        p < |cells| && cells[p] == c && RemoveFirst(cells, k) == cells[..p] + cells[p + 1..]
    {
      hide Index, Apart, HasKey, RemoveFirst, FindFirst;
      c, p := null, 0;
      if num != 256 && num != 1024 { return; }
      var h := Index(num, k);
      var head := heads[h];
      ghost var cells := Bucket(num, all, h);
      ghost var r := Round(head, cells);
      BucketFind(num, all, k);
      assert r[0].next == r[1];
      var curr := head.next;
      while curr != head
        invariant p <= |cells| && curr == r[p + 1]
        invariant forall j :: 0 <= j < p ==> !HasKey(cells[j], k)
        decreases |cells| - p
      {
        assert curr == cells[p] && In(num, cells[p], h);
        var d := CompUuid(curr.slot.elem.key, k);
        KeyTest(curr, k);
        if d == 0 {
          RemoveAt(cells, k, p);
          return curr, p;
        }
        assert r[p + 1].next == r[p + 2];
        curr := curr.next;
        p := p + 1;
      }
      AtEnd(head, cells, p);
      FindNone(cells, k);
    }

    /** `hashlist_find_elem`: the first record put in under the key. */
    method Find(k: Key) returns (e: Option<Elem>)
      requires Valid()
      ensures Sized() ==> e == ElemOf(FindFirst(all, k))
      ensures !Sized() ==> e == None
    {
      hide FindFirst;
      var c, _ := FindCell(k);
      if c == null { return None; }
      FoundItem(all, k);
      e := Some(c.slot.elem);
    }

    /** `hashlist_remove_elem`. */
    method Remove(k: Key) returns (e: Option<Elem>)
      requires Valid()
      modifies this`all, heads, all
      ensures Valid()
      ensures Sized() ==> e == ElemOf(FindFirst(old(all), k)) && all == RemoveFirst(old(all), k)
      ensures !Sized() ==> e == None && all == old(all)
    {
      hide FindFirst, RemoveFirst, Index, Apart, Linked;
      var c, p := FindCell(k);
      if c == null {
        if Sized() { RemoveNone(all, k); }
        return None;
      }
      ghost var rest := RemoveFirst(all, k);
      FoundItem(all, k);
      RemoveKeeps(all, k);
      Unlink(c, Index(num, k), p);
      forall i | 0 <= i < num
        ensures Ring(heads[i], Bucket(num, rest, i))
      {
        BucketRemove(num, all, k, i);
      }
      all := rest;
      e := Some(c.slot.elem);
    }

    /** A cell leaves its bucket; the other buckets do not notice. */
    method Unlink(c: Cell, ghost h: nat, ghost p: nat)
      requires Valid() && h < num && p < |Bucket(num, all, h)| && c == Bucket(num, all, h)[p]
      modifies heads, all
      ensures var cells := Bucket(num, all, h); Ring(heads[h], cells[..p] + cells[p + 1..])
      ensures forall i :: 0 <= i < num && i != h ==> Ring(heads[i], Bucket(num, all, i))
    {
      hide Apart, Linked, Index;
      ghost var cells := Bucket(num, all, h);
      Neighbours(heads[h], cells, p);
      Del(c, heads[h], cells, p);
    }

    /** `hashlist_add_elem`. */
    method Add(elem: Elem) returns (c: Cell?)
      requires Valid()
      modifies this`all, heads, all
      ensures Valid()
      ensures num == 256 || num == 1024 ==> c != null && fresh(c) && c.slot == Item(elem) && all == old(all) + [c]
      ensures num != 256 && num != 1024 ==> c == null && all == old(all)
    {
      hide Linked, Apart, Index;
      var h: nat;
      if num == 256 {
        h := Index(num, elem.key);
      } else if num == 1024 {
        h := Index(num, elem.key);
      } else {
        return null;
      }
      c := new Cell(Item(elem));
      Link(c, h);
      forall i | 0 <= i < num
        ensures Ring(heads[i], Bucket(num, all + [c], i))
      {
        BucketAppend(num, all, c, i);
      }
      all := all + [c];
    }

    /** A new cell goes to the tail of its bucket; the other buckets do not notice. */
    method Link(c: Cell, h: nat)
      requires Valid() && h < num && c !in heads && c !in all
      modifies c, heads, all
      ensures Ring(heads[h], Bucket(num, all, h) + [c])
      ensures forall i :: 0 <= i < num && i != h ==> Ring(heads[i], Bucket(num, all, i))
    {
      hide Apart, Linked, Index;
      ghost var cells := Bucket(num, all, h);
      LastInRing(heads[h], cells);
      AddTail(c, heads[h], cells);
    }

    /** The cursor stands on the first of the cells `rest` that are still to be visited. */
    ghost predicate Cursor(rest: seq<Cell>)
      reads this
    {
      if currHead == null then rest == []
      else
        && currIndex < num && currPos < |Bucket(num, all, currIndex)|
        && currHead == Bucket(num, all, currIndex)[currPos]
        && rest == Bucket(num, all, currIndex)[currPos..] + Flat(num, all, currIndex + 1)
    }

    /** `hashlist_get_first`. */
    method GetFirst() returns (e: Option<Elem>)
      requires Valid()
      modifies this`currIndex, this`currHead, this`currPos
      ensures Cursor(Flat(num, all, 0)) && e == FirstOf(Flat(num, all, 0))
    {
      hide Apart, Linked, Index, Bucket;
      for i := 0 to num
        invariant Flat(num, all, 0) == Flat(num, all, i)
      {
        NextOf(heads[i], Bucket(num, all, i), 0);
        var temp := heads[i].next;
        if temp == heads[i] { continue; }
        ItemAt(num, all, i, 0);
        currIndex, currHead, currPos := i, temp, 0;
        return Some(temp.slot.elem);
      }
      currIndex, currHead := 0, null;
      e := None;
    }

    /** `hashlist_get_next`: one cell is done, the cursor stands on the next. */
    method GetNext(ghost rest: seq<Cell>) returns (e: Option<Elem>)
      requires Valid() && Cursor(rest)
      modifies this`currIndex, this`currHead, this`currPos
      ensures rest == [] ==> e == None && Cursor([])
      ensures rest != [] ==> Cursor(rest[1..]) && e == FirstOf(rest[1..])
    {
      hide Apart, Linked, Index, Bucket, Distinct, Round, Flat;
      if currHead == null { return None; }
      var temp: Cell := currHead;
      ghost var p: nat := currPos + 1;
      ghost var left := rest[1..];
      CellAt(heads[currIndex], Bucket(num, all, currIndex), currPos);
      for i := currIndex to num
        invariant i < num ==> p <= |Bucket(num, all, i)| && temp == Round(heads[i], Bucket(num, all, i))[p]
        invariant i < num ==> left == Bucket(num, all, i)[p..] + Flat(num, all, i + 1)
        invariant i == num ==> left == []
      {
        NextOf(heads[i], Bucket(num, all, i), p);
        temp := temp.next;
        if temp == heads[i] {
          FlatNext(num, all, i, p);
          if i + 1 < num {
            temp := heads[i + 1];
            HeadAt(temp, Bucket(num, all, i + 1));
          }
          p := 0;
          continue;
        }
        ItemAt(num, all, i, p);
        currIndex, currHead, currPos := i, temp, p;
        return Some(temp.slot.elem);
      }
      currIndex, currHead := 0, null;
      e := None;
    }

    /** First and then next until there is none: every record once, bucket by bucket. */
    method VisitAll() returns (es: seq<Elem>)
      requires Valid()
      modifies this`currIndex, this`currHead, this`currPos
      ensures currHead == null && es == ElemsOf(Flat(num, all, 0))
      ensures Sized() ==> multiset(es) == multiset(ElemsOf(all))
    {
      hide Flat, Bucket, Ring, Distinct, ElemsOf, HashList.Cursor;
      ghost var rest := Flat(num, all, 0);
      ghost var flat := rest;
      es := [];
      FlatItems(num, all, 0);
      var e := GetFirst();
      while e.Some?
        invariant Valid() && Cursor(rest) && e == FirstOf(rest)
        invariant forall k :: 0 <= k < |rest| ==> rest[k].slot.Item?
        invariant es + ElemsOf(rest) == ElemsOf(flat)
        decreases |rest|
      {
        ElemsStep(rest);
        es := es + [e.value];
        ghost var before := rest;
        rest := rest[1..];
        e := GetNext(before);
      }
      NoElems(es, rest);
      CursorEnd();
      if Sized() {
        FlatAll(num, all);
        ElemsSame(flat, all);
      }
    }

    lemma CursorEnd()
      requires Cursor([])
      ensures currHead == null
    {
    }
  }

  lemma LastInRing(head: Cell, cells: seq<Cell>)
    requires Ring(head, cells)
    ensures head.prev == if cells == [] then head else cells[|cells| - 1]
  {
    var r := Round(head, cells);
    assert r[|cells|].next == r[|cells| + 1] && r[|cells| + 1].prev == r[|cells|];
  }

  ghost function ElemOf(c: Option<Cell>): Option<Elem> {
    if c.Some? && c.value.slot.Item? then Some(c.value.slot.elem) else None
  }

  lemma KeyTest(c: Cell, k: Key)
    requires c.slot.Item?
    ensures HasKey(c, k) <==> c.slot.elem.key == k
  {
  }

  /** The head comes only at the end. */
  lemma AtEnd(head: Cell, cells: seq<Cell>, p: nat)
    requires Apart(head, cells) && p <= |cells|
    ensures Round(head, cells)[p + 1] == head <==> p == |cells|
  {
  }

  lemma {:induction false} FoundItem(cs: seq<Cell>, k: Key)
    ensures FindFirst(cs, k).Some? ==> FindFirst(cs, k).value.slot.Item? && FindFirst(cs, k).value in cs
  {
    if cs != [] {
      FoundItem(cs[1..], k);
    }
  }

  lemma {:induction false} RemoveNone(cs: seq<Cell>, k: Key)
    requires FindFirst(cs, k) == None
    ensures RemoveFirst(cs, k) == cs
  {
    if cs != [] {
      RemoveNone(cs[1..], k);
    }
  }

  /** Where the first match is; the length of the list if there is none. */
  ghost function Position(cs: seq<Cell>, k: Key): (p: nat)
    ensures p <= |cs| && (p < |cs| ==> HasKey(cs[p], k)) && forall j :: 0 <= j < p ==> !HasKey(cs[j], k)
  {
    if cs == [] || HasKey(cs[0], k) then 0 else 1 + Position(cs[1..], k)
  }

  lemma RemoveKeeps(cs: seq<Cell>, k: Key)
    requires Distinct(cs) && forall i :: 0 <= i < |cs| ==> cs[i].slot.Item?
    ensures var r := RemoveFirst(cs, k);
      Distinct(r) && forall i :: 0 <= i < |r| ==> r[i] in cs && r[i].slot.Item?
  {
    hide HasKey, RemoveFirst;
    var p := Position(cs, k);
    if p < |cs| {
      RemoveAt(cs, k, p);
      CutOut(cs, p);
    } else {
      FindNone(cs, k);
    }
  }

  lemma CutOut(cs: seq<Cell>, p: nat)
    requires p < |cs| && Distinct(cs)
    ensures Distinct(cs[..p] + cs[p + 1..])
  {
    var r := cs[..p] + cs[p + 1..];
    assert forall i :: 0 <= i < |r| ==> r[i] == if i < p then cs[i] else cs[i + 1];
  }

  lemma Neighbours(head: Cell, cells: seq<Cell>, p: nat)
    requires Ring(head, cells) && p < |cells|
    ensures cells[p].prev == if p == 0 then head else cells[p - 1]
    ensures cells[p].next == if p + 1 == |cells| then head else cells[p + 1]
  {
    var r := Round(head, cells);
    assert r[p].next == r[p + 1] && r[p + 1].prev == r[p];
    assert r[p + 1].next == r[p + 2] && r[p + 2].prev == r[p + 1];
  }

  // ------------------------------------------------------------------------
  // The order of a visit

  /** The cells of the buckets from `i` on. */
  ghost function Flat(num: nat, cs: seq<Cell>, i: nat): seq<Cell>
    decreases num - i
  {
    if i >= num then [] else Bucket(num, cs, i) + Flat(num, cs, i + 1)
  }

  ghost function FirstOf(cs: seq<Cell>): Option<Elem> {
    if cs == [] then None else ElemOf(Some(cs[0]))
  }

  ghost function ElemsOf(cs: seq<Cell>): seq<Elem> {
    if cs == [] then []
    else (if cs[0].slot.Item? then [cs[0].slot.elem] else []) + ElemsOf(cs[1..])
  }

  lemma ElemsStep(cs: seq<Cell>)
    requires cs != [] && cs[0].slot.Item?
    ensures ElemsOf(cs) == [cs[0].slot.elem] + ElemsOf(cs[1..])
  {
  }

  lemma NoElems(es: seq<Elem>, cs: seq<Cell>)
    requires cs == []
    ensures es + ElemsOf(cs) == es
  {
  }

  lemma {:induction false} ElemsJoin(a: seq<Cell>, b: seq<Cell>)
    ensures ElemsOf(a + b) == ElemsOf(a) + ElemsOf(b)
  {
    if a == [] {
      assert a + b == b;
    } else {
      var front := if a[0].slot.Item? then [a[0].slot.elem] else [];
      assert (a + b)[0] == a[0] && (a + b)[1..] == a[1..] + b;
      ElemsJoin(a[1..], b);
      assert front + (ElemsOf(a[1..]) + ElemsOf(b)) == (front + ElemsOf(a[1..])) + ElemsOf(b);
    }
  }

  lemma ElemsCut(cs: seq<Cell>, p: nat)
    requires p < |cs| && cs[p].slot.Item?
    ensures multiset(ElemsOf(cs)) == multiset(ElemsOf(cs[..p] + cs[p + 1..])) + multiset{cs[p].slot.elem}
  {
    hide ElemsOf;
    var a, x, b := cs[..p], [cs[p]], cs[p + 1..];
    assert cs == a + (x + b);
    ElemsJoin(a, x + b);
    ElemsStep(x + b);
    assert (x + b)[1..] == b;
    ElemsJoin(a, b);
  }

  /** The same cells in another order hold the same elements. */
  lemma {:induction false} ElemsSame(cs: seq<Cell>, ds: seq<Cell>)
    requires multiset(cs) == multiset(ds) && forall k :: 0 <= k < |cs| ==> cs[k].slot.Item?
    ensures multiset(ElemsOf(cs)) == multiset(ElemsOf(ds))
  {
    hide ElemsOf;
    if cs == [] {
      assert ds == [] by { assert |multiset(ds)| == 0; }
    } else {
      var x, rest := cs[0], cs[1..];
      FrontAll(cs);
      assert x in multiset(ds);
      var p :| 0 <= p < |ds| && ds[p] == x;
      var others := ds[..p] + ds[p + 1..];
      CutAll(ds, p);
      assert multiset(rest) == multiset(cs) - multiset{x};
      assert multiset(others) == multiset(ds) - multiset{x};
      ElemsSame(rest, others);
      ElemsCut(ds, p);
      ElemsStep(cs);
    }
  }

  lemma CutAll(ds: seq<Cell>, p: nat)
    requires p < |ds|
    ensures multiset(ds) == multiset(ds[..p] + ds[p + 1..]) + multiset{ds[p]}
  {
    assert ds == ds[..p] + ([ds[p]] + ds[p + 1..]);
  }

  lemma NextOf(head: Cell, cells: seq<Cell>, p: nat)
    requires Ring(head, cells) && p <= |cells|
    ensures Round(head, cells)[p].next == if p < |cells| then cells[p] else head
    ensures p < |cells| ==> cells[p] != head && Round(head, cells)[p + 1] == cells[p]
  {
  }

  lemma FlatNext(num: nat, cs: seq<Cell>, i: nat, p: nat)
    requires p == |Bucket(num, cs, i)|
    ensures Bucket(num, cs, i)[p..] + Flat(num, cs, i + 1) == Flat(num, cs, i + 1)
    ensures Flat(num, cs, i + 1) == if i + 1 < num then Bucket(num, cs, i + 1)[0..] + Flat(num, cs, i + 2) else []
  {
    hide Bucket;
  }

  lemma CellAt(head: Cell, cells: seq<Cell>, p: nat)
    requires p < |cells|
    ensures Round(head, cells)[p + 1] == cells[p]
  {
  }

  lemma HeadAt(head: Cell, cells: seq<Cell>)
    ensures Round(head, cells)[0] == head
  {
  }

  lemma ItemAt(num: nat, cs: seq<Cell>, i: nat, p: nat)
    requires p < |Bucket(num, cs, i)|
    ensures Bucket(num, cs, i)[p].slot.Item?
  {
  }

  lemma {:induction false} FlatItems(num: nat, cs: seq<Cell>, i: nat)
    ensures forall k :: 0 <= k < |Flat(num, cs, i)| ==> Flat(num, cs, i)[k].slot.Item?
    decreases num - i
  {
    if i < num {
      FlatItems(num, cs, i + 1);
      forall p | 0 <= p < |Bucket(num, cs, i)|
        ensures Bucket(num, cs, i)[p].slot.Item?
      {
        ItemAt(num, cs, i, p);
      }
    }
  }

  /** A visit meets every cell of the list exactly as often as the list has it. */
  lemma {:induction false} FlatAll(num: nat, cs: seq<Cell>)
    requires num == 256 || num == 1024
    requires forall k :: 0 <= k < |cs| ==> cs[k].slot.Item?
    ensures multiset(Flat(num, cs, 0)) == multiset(cs)
  {
    hide Index;
    if cs == [] {
      FlatNone(num, 0);
    } else {
      hide Flat;
      var rest := cs[1..];
      FlatAll(num, rest);
      FlatFront(num, cs, 0);
      FrontAll(cs);
    }
  }

  lemma FrontAll(cs: seq<Cell>)
    requires cs != []
    ensures multiset(cs) == multiset(cs[1..]) + multiset{cs[0]}
  {
    assert cs == [cs[0]] + cs[1..];
  }

  lemma {:induction false} FlatNone(num: nat, i: nat)
    ensures Flat(num, [], i) == []
    decreases num - i
  {
    if i < num {
      FlatNone(num, i + 1);
    }
  }

  lemma {:induction false} FlatFront(num: nat, cs: seq<Cell>, i: nat)
    requires cs != [] && cs[0].slot.Item? && Index(num, cs[0].slot.elem.key) < num
    ensures multiset(Flat(num, cs, i)) == multiset(Flat(num, cs[1..], i)) +
            (if Index(num, cs[0].slot.elem.key) >= i then multiset{cs[0]} else multiset{})
    decreases num - i
  {
    hide Index, Bucket;
    if i < num {
      hide Flat;
      FlatFront(num, cs, i + 1);
      FlatStep(num, cs, i);
      FlatStep(num, cs[1..], i);
      BucketFront(num, cs, i);
      var k := Index(num, cs[0].slot.elem.key);
      FrontJoin(Bucket(num, cs, i), Flat(num, cs, i + 1), Bucket(num, cs[1..], i), Flat(num, cs[1..], i + 1),
                if k == i then multiset{cs[0]} else multiset{}, if k >= i + 1 then multiset{cs[0]} else multiset{});
    }
  }

  lemma FrontJoin(a: seq<Cell>, b: seq<Cell>, a': seq<Cell>, b': seq<Cell>, x: multiset<Cell>, y: multiset<Cell>)
    requires multiset(a) == multiset(a') + x && multiset(b) == multiset(b') + y
    requires x == multiset{} || y == multiset{}
    ensures multiset(a + b) == multiset(a' + b') + (if x == multiset{} then y else x)
  {
    Regroup(multiset(a'), multiset(b'), x, y);
  }

  lemma Regroup(a: multiset<Cell>, b: multiset<Cell>, x: multiset<Cell>, y: multiset<Cell>)
    ensures (a + x) + (b + y) == (a + b) + (x + y)
    ensures x == multiset{} ==> x + y == y
    ensures y == multiset{} ==> x + y == x
  {
  }

  lemma FlatStep(num: nat, cs: seq<Cell>, i: nat)
    requires i < num
    ensures Flat(num, cs, i) == Bucket(num, cs, i) + Flat(num, cs, i + 1)
  {
  }

  lemma BucketFront(num: nat, cs: seq<Cell>, i: nat)
    requires cs != [] && cs[0].slot.Item?
    ensures multiset(Bucket(num, cs, i)) ==
            multiset(Bucket(num, cs[1..], i)) + (if Index(num, cs[0].slot.elem.key) == i then multiset{cs[0]} else multiset{})
  {
    hide Index;
  }

  // ------------------------------------------------------------------------
  // Runs

  datatype Op = Put(elem: Elem) | Look(key: Key) | Take(key: Key)

  function PlainFind(es: seq<Elem>, k: Key): Option<Elem> {
    if es == [] then None else if es[0].key == k then Some(es[0]) else PlainFind(es[1..], k)
  }

  function PlainRemove(es: seq<Elem>, k: Key): seq<Elem> {
    if es == [] then [] else if es[0].key == k then es[1..] else [es[0]] + PlainRemove(es[1..], k)
  }

  function PlainNext(es: seq<Elem>, op: Op): seq<Elem> {
    match op
    case Put(e) => es + [e]
    case Look(_) => es
    case Take(k) => PlainRemove(es, k)
  }

  function PlainAnswer(es: seq<Elem>, op: Op): Option<Elem> {
    match op
    case Put(e) => Some(e)
    case Look(k) => PlainFind(es, k)
    case Take(k) => PlainFind(es, k)
  }

  function PlainRun(ops: seq<Op>): (seq<Elem>, seq<Option<Elem>>) {
    if ops == [] then ([], [])
    else
      var (es, out) := PlainRun(ops[..|ops| - 1]);
      (PlainNext(es, ops[|ops| - 1]), out + [PlainAnswer(es, ops[|ops| - 1])])
  }

  ghost predicate Items(cs: seq<Cell>) { forall i :: 0 <= i < |cs| ==> cs[i].slot.Item? }

  lemma {:induction false} ElemsAppend(cs: seq<Cell>, c: Cell)
    requires c.slot.Item?
    ensures ElemsOf(cs + [c]) == ElemsOf(cs) + [c.slot.elem]
  {
    var all := cs + [c];
    if cs == [] {
      assert all[1..] == [];
    } else {
      assert all[1..] == cs[1..] + [c] && all[0] == cs[0];
      ElemsAppend(cs[1..], c);
      var front := if cs[0].slot.Item? then [cs[0].slot.elem] else [];
      assert front + (ElemsOf(cs[1..]) + [c.slot.elem]) == (front + ElemsOf(cs[1..])) + [c.slot.elem];
    }
  }

  lemma {:induction false} ElemsFind(cs: seq<Cell>, k: Key)
    requires Items(cs)
    ensures PlainFind(ElemsOf(cs), k) == ElemOf(FindFirst(cs, k))
    ensures PlainRemove(ElemsOf(cs), k) == ElemsOf(RemoveFirst(cs, k))
  {
    if cs != [] {
      ElemsFind(cs[1..], k);
      var rest := ElemsOf(cs[1..]);
      assert ElemsOf(cs) == [cs[0].slot.elem] + rest;
      assert ([cs[0].slot.elem] + rest)[1..] == rest;
      assert ([cs[0]] + RemoveFirst(cs[1..], k))[1..] == RemoveFirst(cs[1..], k);
    }
  }

  /** Every run of puts, lookups and removals answers as the plain list does. */
  method Perform(num: nat, ops: seq<Op>) returns (list: HashList, out: seq<Option<Elem>>)
    requires num == 256 || num == 1024
    ensures list.Valid() && (ElemsOf(list.all), out) == PlainRun(ops)
  {
    hide ElemsOf, PlainFind, PlainRemove, FindFirst, RemoveFirst, Bucket, Distinct, Ring;
    list := new HashList(num);
    out := [];
    assert ElemsOf(list.all) == [] by { NoElems([], list.all); }
    for i := 0 to |ops|
      invariant list.Valid() && list.num == num && fresh(list) && fresh(list.heads) && fresh(list.all)
      invariant (ElemsOf(list.all), out) == PlainRun(ops[..i])
    {
      assert ops[..i + 1][..i] == ops[..i];
      ghost var was := list.all;
      match ops[i] {
        case Put(e) =>
          var c := list.Add(e);
          ElemsAppend(was, c);
          out := out + [Some(e)];
        case Look(k) =>
          ElemsFind(list.all, k);
          var e := list.Find(k);
          out := out + [e];
        case Take(k) =>
          ElemsFind(list.all, k);
          RemoveKeeps(list.all, k);
          var e := list.Remove(k);
          out := out + [e];
      }
    }
    assert ops[..|ops|] == ops;
  }
}
