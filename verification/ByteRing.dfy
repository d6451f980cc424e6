/** The byte ring of channel_buf.c. It is empty when both tails meet, and a write never
    lets them meet again, with one exception that this model brings out: while the read
    tail is at zero, a write that reaches the end of the buffer wraps onto it. */
module ByteRing {
  import opened Base
  import opened Words

  function Min(a: int, b: int): int { if a < b then a else b }

  /** Bytes stored between the tails. */
  function Stored(n: nat, read: nat, write: nat): int {
    if read <= write then write - read else n - read + write
  }

  /** Tails that a run without loss can reach. */
  predicate Tails(n: nat, read: nat, write: nat) { (n == 0 && read == 0 && write == 0) || (read < n && write < n) }

  /** What a caller can test before a write of `size` bytes. */
  predicate Safe(n: nat, read: nat, write: nat, size: nat) { read > 0 || size < n - write || n == 0 }

  function Accepted(n: nat, read: nat, write: nat, size: nat): int {
    if read - 1 == write then 0
    else if read > write then Min(size, read - 1 - write)
    else Min(size, n - write + (if read == 0 then 0 else read - 1))
  }

  function WriteTail(n: nat, read: nat, write: nat, size: nat): int {
    if read - 1 == write then write
    else if read > write then write + Min(size, read - 1 - write)
    else if size < n - write then write + size
    else Min(size - (n - write), if read == 0 then 0 else read - 1)
  }

  function ReadTail(n: nat, read: nat, write: nat, size: nat): nat {
    if read <= write then read + Min(size, write - read)
    else if size < n - read then read + size
    else Min(size - (n - read), write)
  }

  /** A write stores what it reports as accepted if and only if it is safe; an unsafe write
      empties the ring. */
  lemma StoredAfterWrite(n: nat, read: nat, write: nat, size: nat)
    requires Tails(n, read, write)
    ensures var w := WriteTail(n, read, write, size);
      && w >= 0 && Tails(n, read, w)
      && (Stored(n, read, w) == Stored(n, read, write) + Accepted(n, read, write, size) <==> Safe(n, read, write, size))
      && (Safe(n, read, write, size) ==> Accepted(n, read, write, size) == Min(size, if n == 0 then 0 else n - 1 - Stored(n, read, write)))
      && (!Safe(n, read, write, size) ==> w == read && Accepted(n, read, write, size) == n - write)
  {
  }

  /** Eight bytes written to a fresh ring of eight bytes are reported and gone. */
  lemma LossExample()
    ensures Tails(8, 0, 0) && Accepted(8, 0, 0, 8) == 8 && WriteTail(8, 0, 0, 8) == 0 && Stored(8, 0, 0) == 0
  {
  }

  /** The stored bytes in the order of writing. */
  function View(b: seq<octet>, read: nat, write: nat): seq<octet>
    requires read <= |b| && write <= |b|
  {
    if read <= write then b[read..write] else b[read..] + b[..write]
  }

  /** Bytes written above the read tail, without reaching the end of the buffer. */
  lemma WriteAbove(b: seq<octet>, read: nat, write: nat, d: seq<octet>)
    requires read <= write && write + |d| <= |b|
    ensures View(Patch(b, write, d), read, write + |d|) == View(b, read, write) + d
  {
    assert Patch(b, write, d)[read..write + |d|] == b[read..write] + d;
  }

  /** Bytes written below the read tail. */
  lemma WriteBelow(b: seq<octet>, read: nat, write: nat, d: seq<octet>)
    requires write + |d| < read <= |b|
    ensures View(Patch(b, write, d), read, write + |d|) == View(b, read, write) + d
  {
    var a := Patch(b, write, d);
    assert a[read..] == b[read..];
    assert a[..write + |d|] == b[..write] + d;
    Assoc(b[read..], b[..write], d);
  }

  /** Bytes written up to the end of the buffer and on from its start. */
  lemma WriteRound(b: seq<octet>, read: nat, write: nat, d: seq<octet>, e: seq<octet>)
    requires read <= write && write + |d| == |b| && |e| < read
    ensures View(Patch(Patch(b, write, d), 0, e), read, |e|) == View(b, read, write) + (d + e)
  {
    var a := Patch(b, write, d);
    var c := Patch(a, 0, e);
    assert a[read..] == b[read..write] + d;
    assert c[read..] == a[read..];
    assert c[..|e|] == e;
  }

  lemma Cut(b: seq<octet>, i: nat, j: nat, k: nat)
    requires i <= j <= k <= |b|
    ensures b[i..k] == b[i..j] + b[j..k]
  {
  }

  /** Bytes read below the write tail. */
  lemma ReadBelow(b: seq<octet>, read: nat, write: nat, n: nat)
    requires read + n <= write <= |b|
    ensures View(b, read, write) == b[read..read + n] + View(b, read + n, write)
  {
    Cut(b, read, read + n, write);
  }

  /** Bytes read in front of the end of the buffer. */
  lemma ReadAbove(b: seq<octet>, read: nat, write: nat, n: nat)
    requires write < read && read + n <= |b|
    ensures View(b, read, write) == b[read..read + n] + View(b, read + n, write)
  {
    var x, y, z := b[read..read + n], b[read + n..], b[..write];
    assert b[read..] == x + y;
    Assoc(x, y, z);
  }

  lemma ReadRound(b: seq<octet>, read: nat, write: nat, n: nat)
    requires write < read <= |b| && n <= write
    ensures View(b, read, write) == b[read..] + b[..n] + View(b, n, write)
  {
    Cut(b, 0, n, write);
    assert b[0..n] == b[..n] && b[0..write] == b[..write];
    Assoc(b[read..], b[..n], b[n..write]);
  }

  lemma ViewSize(b: seq<octet>, read: nat, write: nat)
    requires read <= |b| && write <= |b|
    ensures |View(b, read, write)| == Stored(|b|, read, write)
  {
  }

  lemma Joined(accepted: seq<octet>, delivered: seq<octet>, c: seq<octet>, data: seq<octet>, rest: seq<octet>, lossy: bool)
    requires c == data + rest && (!lossy ==> accepted == delivered + c)
    ensures !lossy ==> accepted == (delivered + data) + rest
  {
  }

  lemma AcceptedMore(accepted: seq<octet>, delivered: seq<octet>, c: seq<octet>, d: seq<octet>, lossy: bool)
    requires !lossy ==> accepted == delivered + c
    ensures !lossy ==> accepted + d == delivered + (c + d)
    ensures d == [] ==> c + d == c
  {
  }

  lemma Emptied(b: seq<octet>, read: nat, write: nat)
    requires read <= |b| && write <= |b|
    ensures read == write ==> View(b, read, write) == []
  {
  }

  lemma EmptyBuffer(b: seq<octet>, d: seq<octet>)
    requires b == []
    ensures View(b, 0, 0) == [] && (d == [] ==> View(b, 0, 0) + d == [])
  {
  }

  lemma TwoParts(data: seq<octet>, i: nat, j: nat)
    requires i <= j <= |data|
    ensures data[..i] + data[i..j] == data[..j]
  {
  }

  lemma Parts(c: seq<octet>, data: seq<octet>, rest: seq<octet>)
    requires c == data + rest
    ensures c[..|data|] == data && c[|data|..] == rest
  {
  }

  class Channel {
    const bufsize: nat
    const buf: array<octet>
    var readTail: nat
    var writeTail: nat
    ghost var accepted: seq<octet>
    ghost var delivered: seq<octet>
    ghost var lossy: bool

    ghost predicate Sound()
      reads this
    {
      buf.Length == bufsize && Tails(bufsize, readTail, writeTail)
    }

    ghost function Contents(): seq<octet>
      requires Sound()
      reads this, buf
    {
      View(buf[..], readTail, writeTail)
    }

    /** As long as no write was unsafe, what was delivered and what is stored together are
        what was accepted. */
    ghost predicate Valid()
      reads this, buf
    {
      Sound() && (!lossy ==> accepted == delivered + Contents())
    }

    constructor (size: nat)
      requires size <= 32767
      ensures Valid() && fresh(buf) && bufsize == size && readTail == writeTail == 0 && Contents() == [] && !lossy && accepted == [] && delivered == []
    {
      bufsize := size;
      buf := new octet[size];
      readTail, writeTail := 0, 0;
      accepted, delivered, lossy := [], [], false;
    }

    /** `channel_buf_read`. */
    method Read(size: nat) returns (ret: int, data: seq<octet>)
      requires Valid()
      modifies this`readTail, this`delivered
      ensures Valid() && ret == |data| == Min(size, |old(Contents())|)
      ensures data == old(Contents())[..ret] && Contents() == old(Contents())[ret..]
      ensures delivered == old(delivered) + data && readTail == ReadTail(bufsize, old(readTail), writeTail, size)
    {
      hide View, Tails, Min, ReadTail;
      ghost var c := Contents();
      ret, data := Take(size);
      ghost var rest := Contents();
      Parts(c, data, rest);
      Joined(accepted, delivered, c, data, rest, lossy);
      ghost var more := delivered + data;
      delivered := more;
      assert Contents() == rest;
    }

    /** The branches of a read. */
    method Take(size: nat) returns (ret: int, data: seq<octet>)
      requires Sound()
      modifies this`readTail
      ensures Sound() && ret == |data| == Min(size, |old(Contents())|)
      ensures old(Contents()) == data + Contents() && readTail == ReadTail(bufsize, old(readTail), writeTail, size)
    {
      hide View;
      ghost var b := buf[..];
      ret, data := 0, [];
      ViewSize(b, readTail, writeTail);
      if readTail == writeTail { return; }
      if readTail < writeTail {
        var left := writeTail - readTail;
        ret := if size < left then size else left;
        ReadBelow(b, readTail, writeTail, ret);
        data := buf[readTail..readTail + ret];
        readTail := if size < left then readTail + size else writeTail;
      } else {
        var left := bufsize - readTail + writeTail;
        var block := bufsize - readTail;
        if size < block {
          ReadAbove(b, readTail, writeTail, size);
          data := buf[readTail..readTail + size];
          readTail := readTail + size;
          ret := size;
        } else {
          ret := if size < left then size else left;
          ReadRound(b, readTail, writeTail, ret - block);
          data := buf[readTail..] + buf[..ret - block];
          readTail := if size < left then size - block else writeTail;
        }
      }
    }

    /** `channel_buf_write`. */
    method Write(data: seq<octet>) returns (ret: int)
      requires Valid()
      modifies this`writeTail, this`accepted, this`lossy, buf
      ensures Valid() && 0 <= ret <= |data| && ret == Accepted(bufsize, readTail, old(writeTail), |data|)
      ensures accepted == old(accepted) + data[..ret] && writeTail == WriteTail(bufsize, readTail, old(writeTail), |data|)
      ensures lossy == (old(lossy) || !Safe(bufsize, readTail, old(writeTail), |data|))
      ensures Safe(bufsize, readTail, old(writeTail), |data|) ==> Contents() == old(Contents()) + data[..ret]
      ensures !Safe(bufsize, readTail, old(writeTail), |data|) ==> Contents() == []
    {
      hide View, Tails, Safe, Accepted, WriteTail;
      StoredAfterWrite(bufsize, readTail, writeTail, |data|);
      ghost var c, safe := Contents(), Safe(bufsize, readTail, writeTail, |data|);
      ret := Give(data);
      Emptied(buf[..], readTail, writeTail);
      AcceptedMore(accepted, delivered, c, data[..ret], lossy);
      accepted := accepted + data[..ret];
      lossy := lossy || !safe;
    }

    /** The branches of a write. */
    method Give(data: seq<octet>) returns (ret: int)
      requires Sound()
      modifies this`writeTail, buf
      ensures 0 <= ret <= |data| && ret == Accepted(bufsize, readTail, old(writeTail), |data|)
      ensures Sound() && writeTail == WriteTail(bufsize, readTail, old(writeTail), |data|)
      ensures Safe(bufsize, readTail, old(writeTail), |data|) ==> Contents() == old(Contents()) + data[..ret]
    {
      hide View, Patch;
      var size := |data|;
      ghost var b := buf[..];
      ret := 0;
      if readTail - 1 == writeTail {
        AcceptedMore([], [], Contents(), data[..0], true);
        return;
      }
      if readTail > writeTail {
        var left := readTail - 1 - writeTail;
        ret := if size < left then size else left;
        WriteBelow(b, readTail, writeTail, data[..ret]);
        Copy(writeTail, data[..ret]);
        writeTail := if size < left then writeTail + size else readTail - 1;
        return;
      }
      if size < bufsize - writeTail {
        WriteAbove(b, readTail, writeTail, data[..size]);
        Copy(writeTail, data[..size]);
        writeTail := writeTail + size;
        return size;
      }
      ret := GiveRound(data);
    }

    /** A write that reaches the end of the buffer. */
    method GiveRound(data: seq<octet>) returns (ret: int)
      requires Sound() && readTail <= writeTail && |data| >= bufsize - writeTail
      modifies this`writeTail, buf
      ensures 0 <= ret <= |data| && ret == Accepted(bufsize, readTail, old(writeTail), |data|)
      ensures Sound() && writeTail == WriteTail(bufsize, readTail, old(writeTail), |data|)
      ensures Safe(bufsize, readTail, old(writeTail), |data|) ==> Contents() == old(Contents()) + data[..ret]
    {
      hide View, Patch;
      var size := |data|;
      ghost var b := buf[..];
      var block, front := bufsize - writeTail, readTail - 1;
      if front < 0 { front := 0; }
      var left := block + front;
      ret := if size < left then size else left;
      ghost var d, e := data[..block], data[block..ret];
      TwoParts(data, block, ret);
      if readTail > 0 {
        WriteRound(b, readTail, writeTail, d, e);
      } else if bufsize == 0 {
        EmptyBuffer(b, data[..ret]);
      }
      Copy(writeTail, data[..block]);
      Copy(0, data[block..ret]);
      writeTail := if size < left then size - block else front;
      if bufsize == 0 {
        EmptyBuffer(buf[..], data[..ret]);
      }
    }

    method Copy(at: nat, d: seq<octet>)
      requires buf.Length == bufsize && at + |d| <= bufsize
      modifies buf
      ensures buf[..] == Patch(old(buf[..]), at, d)
    {
      for i := 0 to |d|
        invariant buf[..at] == old(buf[..at]) && buf[at..at + i] == d[..i] && buf[at + i..] == old(buf[at + i..])
      {
        buf[at + i] := d[i];
      }
    }
  }

  // ------------------------------------------------------------------------
  // Runs

  datatype Op = Write(data: seq<octet>) | Read(size: nat)

  /** What the sizes of the operations alone tell: the tails, and whether a write was unsafe. */
  datatype Course = Course(read: nat, write: nat, lossy: bool)

  function Next(n: nat, c: Course, op: Op): Course {
    match op
    case Read(size) => c.(read := ReadTail(n, c.read, c.write, size))
    case Write(data) =>
      if !Tails(n, c.read, c.write) then c
      else
        StoredAfterWrite(n, c.read, c.write, |data|);
        Course(c.read, WriteTail(n, c.read, c.write, |data|), c.lossy || !Safe(n, c.read, c.write, |data|))
  }

  function CourseOf(n: nat, ops: seq<Op>): Course {
    if ops == [] then Course(0, 0, false) else Next(n, CourseOf(n, ops[..|ops| - 1]), ops[|ops| - 1])
  }

  /** Over every run whose writes are safe, the bytes read are the first of the bytes accepted,
      in order, and the others are stored, at most one less than the buffer has. */
  method Perform(size: nat, ops: seq<Op>) returns (ch: Channel, accepted: seq<octet>, delivered: seq<octet>)
    requires size <= 32767
    ensures ch.Valid() && ch.bufsize == size && ch.lossy == CourseOf(size, ops).lossy
    ensures !ch.lossy ==> accepted == delivered + ch.Contents() && |ch.Contents()| <= (if size == 0 then 0 else size - 1)
  {
    hide View, ReadTail, WriteTail, Safe;
    ch := new Channel(size);
    accepted, delivered := [], [];
    for i := 0 to |ops|
      invariant ch.Valid() && ch.bufsize == size && fresh(ch) && fresh(ch.buf)
      invariant accepted == ch.accepted && delivered == ch.delivered
      invariant CourseOf(size, ops[..i]) == Course(ch.readTail, ch.writeTail, ch.lossy)
    {
      assert ops[..i + 1][..i] == ops[..i];
      match ops[i] {
        case Write(data) =>
          var n := ch.Write(data);
          accepted := accepted + data[..n];
        case Read(n) =>
          var _, data := ch.Read(n);
          delivered := delivered + data;
      }
    }
    assert ops[..|ops|] == ops;
    ViewSize(ch.buf[..], ch.readTail, ch.writeTail);
  }
}
