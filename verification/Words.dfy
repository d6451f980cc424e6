/** Bytes, 32 bit words and block-wise hashing, shared by the digests, the cipher and the buffers. */
module Words {
  import opened Base
  import opened Counting

  type word = bv32

  function Rotl(x: word, n: bv5): word { (x << n) | (x >> (32 - n as bv6)) }

  /** Four bytes, most significant first. */
  function BigEndian(b0: octet, b1: octet, b2: octet, b3: octet): word {
    (b0 as word << 24) | (b1 as word << 16) | (b2 as word << 8) | b3 as word
  }

  /** Four bytes, least significant first, as the machine loads them. */
  function LittleEndian(b0: octet, b1: octet, b2: octet, b3: octet): word {
    b0 as word | (b1 as word << 8) | (b2 as word << 16) | (b3 as word << 24)
  }

  function Swap(x: word): word {
    ((x & 0xff00_0000) >> 24) | ((x & 0x00ff_0000) >> 8) | ((x & 0x0000_ff00) << 8) | ((x & 0x0000_00ff) << 24)
  }

  lemma SwapLoad(b0: octet, b1: octet, b2: octet, b3: octet)
    ensures Swap(LittleEndian(b0, b1, b2, b3)) == BigEndian(b0, b1, b2, b3)
  {
  }

  /** Byte `k` of a word, most significant first. */
  function ByteOf(x: word, k: nat): octet
    requires k < 4
  {
    if k == 0 then ((x >> 24) & 0xff) as octet
    else if k == 1 then ((x >> 16) & 0xff) as octet
    else if k == 2 then ((x >> 8) & 0xff) as octet
    else (x & 0xff) as octet
  }

  function WordBytes(x: word): (b: seq<octet>)
    ensures |b| == 4
  {
    [ByteOf(x, 0), ByteOf(x, 1), ByteOf(x, 2), ByteOf(x, 3)]
  }

  function WordOf(n: nat): word
    requires n < 0x1_0000_0000
  {
    n as word
  }

  function Zeros(n: nat): (z: seq<octet>)
    ensures |z| == n
  {
    if n == 0 then [] else Zeros(n - 1) + [0]
  }

  /** `b` stored into `s` at position `to`. */
  function Patch(s: seq<octet>, to: nat, b: seq<octet>): (r: seq<octet>)
    requires to + |b| <= |s|
    ensures |r| == |s|
  {
    s[..to] + b + s[to + |b|..]
  }

  lemma Assoc(a: seq<octet>, b: seq<octet>, c: seq<octet>)
    ensures (a + b) + c == a + (b + c)
  {
  }

  // ------------------------------------------------------------------------
  // Folding a compression function over 64 byte blocks

  const BLOCK: nat := 64

  function Fold<H>(f: (H, seq<octet>) -> H, h: H, data: seq<octet>): H
    requires |data| % BLOCK == 0
    decreases |data|
  {
    if data == [] then h
    else f(Fold(f, h, data[..|data| - BLOCK]), data[|data| - BLOCK..])
  }

  lemma FoldMore<H>(f: (H, seq<octet>) -> H, h: H, data: seq<octet>, block: seq<octet>)
    requires |data| % BLOCK == 0 && |block| == BLOCK
    ensures |data + block| % BLOCK == 0
    ensures Fold(f, h, data + block) == f(Fold(f, h, data), block)
  {
    Unique64(|data| + 64, |data| / 64 + 1, 0);
    var all := data + block;
    assert all[..|all| - BLOCK] == data && all[|all| - BLOCK..] == block;
  }

  /** The full blocks of a message, and the bytes behind them. */
  function Full(m: seq<octet>): (r: seq<octet>)
    ensures |r| % BLOCK == 0
  {
    m[..|m| - |m| % BLOCK]
  }

  function Tail(m: seq<octet>): (r: seq<octet>)
    ensures |r| == |m| % BLOCK
  {
    m[|m| - |m| % BLOCK..]
  }

  /** Nothing fed: no blocks, no tail, nothing counted. */
  lemma NothingFed()
    ensures Full([]) == [] && Tail([]) == [] && Lo(0) == 0 && Hi(0) == 0
  {
  }

  /** `data` bytes complete the block that `m` has begun. */
  lemma Completes(m: seq<octet>, data: seq<octet>, n: nat)
    requires n == BLOCK - |m| % BLOCK && n <= |data|
    ensures |m + data[..n]| % BLOCK == 0
    ensures m + data[..n] == Full(m) + (Tail(m) + data[..n])
  {
  }

  /** Fewer bytes than a block behind full blocks are the tail. */
  lemma Leaves(full: seq<octet>, rest: seq<octet>)
    requires |full| % BLOCK == 0 && |rest| < BLOCK
    ensures Full(full + rest) == full && Tail(full + rest) == rest
  {
  }

  /** Bytes that do not fill the block only make the tail longer. */
  lemma Extends(m: seq<octet>, data: seq<octet>)
    requires |m| % BLOCK + |data| < BLOCK
    ensures Full(m + data) == Full(m) && Tail(m + data) == Tail(m) + data
  {
    Leaves(Full(m), Tail(m) + data);
    assert Full(m) + (Tail(m) + data) == m + data;
  }

  // ------------------------------------------------------------------------
  // Padding with the length in bits

  /** The low 64 bits of a number, most significant byte first. */
  function Length64(bits: nat): (b: seq<octet>)
    ensures |b| == 8
  {
    WordBytes(WordOf(Hi(bits))) + WordBytes(WordOf(Lo(bits)))
  }

  /** Zero bytes between the end mark and the length. */
  function PadZeros(n: nat): (k: nat)
    ensures k < BLOCK && (n + 1 + k) % BLOCK == 56
  {
    if n % BLOCK < 56 then 55 - n % BLOCK else 119 - n % BLOCK
  }

  /** The padded message: one set bit, zero bits, and the length of the message. */
  function Padded(m: seq<octet>): (p: seq<octet>)
    ensures |p| % BLOCK == 0
  {
    PadLength(|m|);
    m + [0x80] + Zeros(PadZeros(|m|)) + Length64(8 * |m|)
  }

  lemma PadLength(n: nat)
    ensures (n + 1 + PadZeros(n) + 8) % BLOCK == 0
  {
    var x := n + 1 + PadZeros(n);
    Unique64(x + 8, x / 64 + 1, 0);
  }
}
