/** Circular doubly linked lists (list.h). A list is a ring through a head cell. */
module Lists {

  /** 32 bytes. */
  type Key = k: seq<int> | |k| == 32 && forall i :: 0 <= i < 32 ==> 0 <= k[i] < 256
    witness [0, 0, 0, 0, 0, 0, 0, 0, 0, 0, 0, 0, 0, 0, 0, 0, 0, 0, 0, 0, 0, 0, 0, 0, 0, 0, 0, 0, 0, 0, 0, 0]

  /** A record with its key in front. */
  datatype Elem = Elem(key: Key, content: int)

  datatype Slot = Head | Item(elem: Elem)

  class Cell {
    const slot: Slot
    var next: Cell?
    var prev: Cell?

    /** INIT_LIST_HEAD: a ring of one. */
    constructor (slot: Slot)
      ensures this.slot == slot && Ring(this, [])
    {
      this.slot := slot;
      new;
      next := this;
      prev := this;
    }
  }

  /** The cells in the order of the ring, with the head at both ends. */
  ghost function Round(head: Cell, cells: seq<Cell>): (r: seq<Cell>)
    ensures |r| == |cells| + 2
  {
    [head] + cells + [head]
  }

  ghost predicate Apart(head: Cell, cells: seq<Cell>) {
    && (forall i :: 0 <= i < |cells| ==> cells[i] != head)
    && (forall i, j :: 0 <= i < j < |cells| ==> cells[i] != cells[j])
  }

  ghost predicate Linked(r: seq<Cell>)
    reads r
  {
    forall i :: 0 <= i < |r| - 1 ==> r[i].next == r[i + 1] && r[i + 1].prev == r[i]
  }

  /** `head` heads a well-formed ring of `cells`. */
  ghost predicate Ring(head: Cell, cells: seq<Cell>)
    reads head, cells
  {
    Apart(head, cells) && Linked(Round(head, cells))
  }

  /** `__List_add` between two neighbours. */
  method AddBetween(cell: Cell, prev: Cell, next: Cell)
    modifies cell, prev, next
    ensures cell != prev && cell != next ==>
      && next.prev == cell && cell.next == next && cell.prev == prev && prev.next == cell
      && (prev != next ==> prev.prev == old(prev.prev) && next.next == old(next.next))
  {
    next.prev := cell;
    cell.next := next;
    cell.prev := prev;
    prev.next := cell;
  }

  /** A cell linked in behind position `k` of the ring. */
  method Insert(cell: Cell, head: Cell, ghost cells: seq<Cell>, ghost k: nat, prev: Cell)
    requires Ring(head, cells) && cell != head && cell !in cells
    requires k <= |cells| && prev == Round(head, cells)[k]
    modifies cell, prev, prev.next
    ensures Ring(head, cells[..k] + [cell] + cells[k..])
  {
    ghost var r := Round(head, cells);
    assert r[k].next == r[k + 1] && r[k + 1].prev == r[k];
    AddBetween(cell, prev, prev.next);
    assert forall i :: 0 <= i < |r| - 1 && i != k ==> r[i].next == r[i + 1] && r[i + 1].prev == r[i];
    ApartSpliced(head, cells, cell, [], k);
    LinkedSpliced(head, cells, cell, [], k);
    assert [cell] + [] == [cell];
  }

  /** `List_add`: behind the head. */
  method Add(cell: Cell, head: Cell, ghost cells: seq<Cell>)
    requires Ring(head, cells) && cell != head && cell !in cells
    modifies cell, head, head.next
    ensures Ring(head, [cell] + cells)
  {
    assert Round(head, cells)[0] == head;
    Insert(cell, head, cells, 0, head);
    assert cells[..0] + [cell] + cells[0..] == [cell] + cells;
  }

  /** `List_add_tail`: in front of the head. */
  method AddTail(cell: Cell, head: Cell, ghost cells: seq<Cell>)
    requires Ring(head, cells) && cell != head && cell !in cells
    modifies cell, head, head.prev
    ensures Ring(head, cells + [cell])
  {
    ghost var r := Round(head, cells);
    assert r[|cells|].next == r[|cells| + 1] && r[|cells| + 1].prev == r[|cells|];
    Insert(cell, head, cells, |cells|, head.prev);
    assert cells[..|cells|] + [cell] + cells[|cells|..] == cells + [cell];
  }

  /** `List_del`: the cell leaves the ring and is a ring of its own. */
  method Del(cell: Cell, ghost head: Cell, ghost cells: seq<Cell>, ghost k: nat)
    requires Ring(head, cells) && k < |cells| && cell == cells[k]
    modifies cell, cell.prev, cell.next
    ensures Ring(head, cells[..k] + cells[k + 1..]) && Ring(cell, [])
  {
    ghost var r := Round(head, cells);
    ghost var s := Round(head, cells[..k] + cells[k + 1..]);
    assert r[k + 1] == cell && r[k].next == r[k + 1] && r[k + 1].prev == r[k];
    assert r[k + 1].next == r[k + 2] && r[k + 2].prev == r[k + 1];
    assert s == r[..k + 1] + r[k + 2..];
    if cell.next == cell { return; }
    cell.next.prev := cell.prev;
    cell.prev.next := cell.next;
    cell.prev := cell;
    cell.next := cell;
  }

  /** Two rings without a common cell. */
  ghost predicate Foreign(head: Cell, cells: seq<Cell>, first: Cell, rest: seq<Cell>) {
    && first != head && first !in cells && head !in rest
    && (forall i, j :: 0 <= i < |rest| && 0 <= j < |cells| ==> rest[i] != cells[j])
  }

  /** `List_cat`: the whole ring of `first` is spliced in behind position `k`. */
  method Cat(first: Cell, ghost rest: seq<Cell>, prev: Cell, ghost head: Cell, ghost cells: seq<Cell>, ghost k: nat)
    requires Ring(head, cells) && Ring(first, rest) && k <= |cells| && prev == Round(head, cells)[k]
    requires Foreign(head, cells, first, rest)
    modifies first, first.prev, prev, prev.next
    ensures Ring(head, cells[..k] + ([first] + rest) + cells[k..])
  {
    ghost var r, q := Round(head, cells), Round(first, rest);
    ghost var n := |rest| + 1;
    assert r[k].next == r[k + 1] && r[k + 1].prev == r[k];
    assert q[n - 1].next == q[n] && q[n].prev == q[n - 1];
    var tail := first.prev;
    first.prev := prev;
    tail.next := prev.next;
    prev.next.prev := tail;
    prev.next := first;
    assert forall i :: 0 <= i < |r| - 1 && i != k ==> r[i].next == r[i + 1] && r[i + 1].prev == r[i];
    assert forall i :: 0 <= i < |q| - 2 ==> q[i].next == q[i + 1] && q[i + 1].prev == q[i];
    ApartSpliced(head, cells, first, rest, k);
    LinkedSpliced(head, cells, first, rest, k);
  }

  lemma ApartSpliced(head: Cell, cells: seq<Cell>, first: Cell, rest: seq<Cell>, k: nat)
    requires Apart(head, cells) && Apart(first, rest) && k <= |cells| && Foreign(head, cells, first, rest)
    ensures Apart(head, cells[..k] + ([first] + rest) + cells[k..])
  {
    var all := cells[..k] + ([first] + rest) + cells[k..];
    var n := |rest| + 1;
    forall i, j | 0 <= i < j < |all|
      ensures all[i] != all[j]
    {
      assert all[i] == if i < k then cells[i] else if i < k + n then ([first] + rest)[i - k] else cells[i - n];
      assert all[j] == if j < k then cells[j] else if j < k + n then ([first] + rest)[j - k] else cells[j - n];
    }
  }

  lemma LinkedSpliced(head: Cell, cells: seq<Cell>, first: Cell, rest: seq<Cell>, k: nat)
    requires k <= |cells|
    requires forall i :: 0 <= i < |cells| + 1 && i != k ==>
      Round(head, cells)[i].next == Round(head, cells)[i + 1] && Round(head, cells)[i + 1].prev == Round(head, cells)[i]
    requires forall i :: 0 <= i < |rest| ==>
      Round(first, rest)[i].next == Round(first, rest)[i + 1] && Round(first, rest)[i + 1].prev == Round(first, rest)[i]
    requires var prev, next, tail := Round(head, cells)[k], Round(head, cells)[k + 1], Round(first, rest)[|rest|];
      prev.next == first && first.prev == prev && tail.next == next && next.prev == tail
    ensures Linked(Round(head, cells[..k] + ([first] + rest) + cells[k..]))
  {
    var r, q, n := Round(head, cells), Round(first, rest), |rest| + 1;
    var s := Round(head, cells[..k] + ([first] + rest) + cells[k..]);
    assert s == r[..k + 1] + q[..n] + r[k + 1..];
    forall i | 0 <= i < |s| - 1
      ensures s[i].next == s[i + 1] && s[i + 1].prev == s[i]
    {
      assert s[i] == if i <= k then r[i] else if i <= k + n then q[i - k - 1] else r[i - n];
      assert s[i + 1] == if i < k then r[i + 1] else if i < k + n then q[i - k] else r[i + 1 - n];
    }
  }
}
