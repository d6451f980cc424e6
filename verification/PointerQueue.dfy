/** The pointer queue of basefunc.c: a ring whose `head` is -1 when it is empty. */
module PointerQueue {
  import opened Base
  class Queue<T(0)> {
    const size: nat
    const buffer: array<T>
    var head: int
    var tail: int

    ghost predicate Valid()
      reads this
    {
      && size >= 1 && buffer.Length == size && -1 <= head < size && 0 <= tail < size
      && (head == -1 ==> tail == 0)
    }

    /** Oldest first: from `tail` round to `head`, both included. */
    ghost function Contents(): (c: seq<T>)
      requires Valid()
      reads this, buffer
      ensures |c| <= size
    {
      if head == -1 then []
      else if tail <= head then buffer[tail..head + 1]
      else buffer[tail..] + buffer[..head + 1]
    }

    constructor (size: nat)
      requires size >= 1
      ensures Valid() && fresh(buffer) && this.size == size && Contents() == []
    {
      this.size := size;
      buffer := new T[size];
      head := -1;
      tail := 0;
    }

    method Put(x: T) returns (r: int)
      requires Valid()
      modifies this, buffer
      ensures Valid()
      ensures r == if |old(Contents())| < size then 0 else ENOSPC
      ensures Contents() == if |old(Contents())| < size then old(Contents()) + [x] else old(Contents())
    {
      if head == -1 {
        head := 0;
      } else if head == size - 1 {
        if tail == 0 { return ENOSPC; }
        head := 0;
      } else {
        if head + 1 == tail { return ENOSPC; }
        head := head + 1;
      }
      buffer[head] := x;
      r := 0;
    }

    method Get() returns (r: int, x: T)
      requires Valid()
      modifies this
      ensures Valid()
      ensures r == if old(Contents()) == [] then EINVAL else 0
      ensures old(Contents()) != [] ==> x == old(Contents())[0] && Contents() == old(Contents())[1..]
      ensures old(Contents()) == [] ==> Contents() == []
    {
      x := buffer[tail];
      if head == -1 { return EINVAL, x; }
      if tail == head {
        head, tail := -1, 0;
        return 0, x;
      }
      if tail == size - 1 {
        tail := 0;
      } else {
        tail := tail + 1;
      }
      r := 0;
    }
  }

  // ------------------------------------------------------------------------
  // Runs against a bounded queue

  datatype Op<T> = Put(x: T) | Get

  datatype Answer<T> = Code(r: int) | Value(x: T)

  function Next<T>(q: seq<T>, size: nat, op: Op<T>): (seq<T>, Answer<T>) {
    match op
    case Put(x) => if |q| < size then (q + [x], Code(0)) else (q, Code(ENOSPC))
    case Get => if q == [] then (q, Code(EINVAL)) else (q[1..], Value(q[0]))
  }

  function Run<T>(size: nat, ops: seq<Op<T>>): (seq<T>, seq<Answer<T>>) {
    if ops == [] then ([], [])
    else
      var (q, out) := Run(size, ops[..|ops| - 1]);
      var (q', a) := Next(q, size, ops[|ops| - 1]);
      (q', out + [a])
  }

  /** For every size and every run the ring answers as a queue of exactly that capacity. */
  method Perform<T(0)>(size: nat, ops: seq<Op<T>>) returns (q: Queue<T>, out: seq<Answer<T>>)
    requires size >= 1
    ensures q.Valid() && (q.Contents(), out) == Run(size, ops)
  {
    q := new Queue<T>(size);
    out := [];
    for i := 0 to |ops|
      invariant q.Valid() && q.size == size && fresh(q) && fresh(q.buffer)
      invariant (q.Contents(), out) == Run(size, ops[..i])
    {
      assert ops[..i + 1][..i] == ops[..i];
      match ops[i] {
        case Put(x) =>
          var r := q.Put(x);
          out := out + [Code(r)];
        case Get =>
          var r, x := q.Get();
          out := out + [if r == 0 then Value(x) else Code(r)];
      }
    }
    assert ops[..|ops|] == ops;
  }
}
