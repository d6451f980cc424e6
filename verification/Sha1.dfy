/** SHA-1 (sha1.c) against sections 5.1.1 and 6.1 of FIPS 180-4. */
module Sha1 {
  import opened Base
  import opened Words
  import opened Counting

  // ------------------------------------------------------------------------
  // The textbook algorithm

  datatype Regs = Regs(a: word, b: word, c: word, d: word, e: word)

  const INIT := Regs(0x67452301, 0xEFCDAB89, 0x98BADCFE, 0x10325476, 0xC3D2E1F0)

  function Ch(x: word, y: word, z: word): word { (x & y) ^ (!x & z) }

  function Parity(x: word, y: word, z: word): word { x ^ y ^ z }

  function Maj(x: word, y: word, z: word): word { (x & y) ^ (x & z) ^ (y & z) }

  function Mix(t: nat, x: word, y: word, z: word): word {
    if t < 20 then Ch(x, y, z) else if t < 40 then Parity(x, y, z) else if t < 60 then Maj(x, y, z) else Parity(x, y, z)
  }

  function Konst(t: nat): word {
    if t < 20 then 0x5A827999 else if t < 40 then 0x6ED9EBA1 else if t < 60 then 0x8F1BBCDC else 0xCA62C1D6
  }

  /** Word `t` of the message schedule. */
  function Sched(block: seq<octet>, t: nat): word
    requires |block| == BLOCK
  {
    if t < 16 then BigEndian(block[4 * t], block[4 * t + 1], block[4 * t + 2], block[4 * t + 3])
    else Rotl(Sched(block, t - 3) ^ Sched(block, t - 8) ^ Sched(block, t - 14) ^ Sched(block, t - 16), 1)
  }

  function Sum5(a: word, b: word, c: word, d: word, e: word): word { a + b + c + d + e }

  function Round(t: nat, r: Regs, w: word): Regs {
    Regs(Sum5(Rotl(r.a, 5), Mix(t, r.b, r.c, r.d), r.e, Konst(t), w), r.a, Rotl(r.b, 30), r.c, r.d)
  }

  /** The working variables after `t` rounds. */
  function Rounds(block: seq<octet>, h: Regs, t: nat): Regs
    requires |block| == BLOCK
  {
    if t == 0 then h else Round(t - 1, Rounds(block, h, t - 1), Sched(block, t - 1))
  }

  function Compress(h: Regs, block: seq<octet>): Regs {
    if |block| != BLOCK then h
    else
      AddRegs(h, Rounds(block, h, 80))
  }

  function AddRegs(h: Regs, r: Regs): Regs { Regs(h.a + r.a, h.b + r.b, h.c + r.c, h.d + r.d, h.e + r.e) }

  function DigestBytes(h: Regs): seq<octet> {
    WordBytes(h.a) + WordBytes(h.b) + WordBytes(h.c) + WordBytes(h.d) + WordBytes(h.e)
  }

  /** The chaining value after the blocks of `m`. */
  function Chained(m: seq<octet>): Regs
    requires |m| % BLOCK == 0
  {
    Fold(Compress, INIT, m)
  }

  lemma ChainedNone()
    ensures Chained([]) == INIT
  {
    hide Compress, INIT;
  }

  lemma ChainedMore(m: seq<octet>, block: seq<octet>)
    requires |m| % BLOCK == 0 && |block| == BLOCK
    ensures |m + block| % BLOCK == 0
    ensures Chained(m + block) == Compress(Chained(m), block)
  {
    hide Compress, INIT;
    FoldMore(Compress, INIT, m, block);
  }

  function Hash(m: seq<octet>): seq<octet> {
    DigestBytes(Chained(Padded(m)))
  }

  // ------------------------------------------------------------------------
  // The unrolled transform

  function F0(x: word, y: word, z: word): word { (x & (y ^ z)) ^ z }

  function F2(x: word, y: word, z: word): word { ((x | y) & z) | (x & y) }

  function F1(x: word, y: word, z: word): word { x ^ y ^ z }

  function F(t: nat, x: word, y: word, z: word): word {
    if t < 20 then F0(x, y, z) else if 40 <= t < 60 then F2(x, y, z) else F1(x, y, z)
  }

  lemma ChooseBits(x: word, y: word, z: word)
    ensures (x & (y ^ z)) ^ z == (x & y) ^ (!x & z)
  {
  }

  lemma MajorityBits(x: word, y: word, z: word)
    ensures ((x | y) & z) | (x & y) == (x & y) ^ (x & z) ^ (y & z)
  {
  }

  lemma F0IsCh(x: word, y: word, z: word)
    ensures F0(x, y, z) == Ch(x, y, z)
  {
    ChooseBits(x, y, z);
  }

  lemma F1IsParity(x: word, y: word, z: word)
    ensures F1(x, y, z) == Parity(x, y, z)
  {
  }

  lemma F2IsMaj(x: word, y: word, z: word)
    ensures F2(x, y, z) == Maj(x, y, z)
  {
    MajorityBits(x, y, z);
  }

  lemma FIsMix(t: nat, x: word, y: word, z: word)
    ensures F(t, x, y, z) == Mix(t, x, y, z)
  {
    hide F0, F1, F2, Ch, Parity, Maj;
    F0IsCh(x, y, z);
    F1IsParity(x, y, z);
    F2IsMaj(x, y, z);
  }

  /** The sum as the macros write it. */
  function MacroSum(e: word, f: word, w: word, k: word, r: word): word { e + (f + w + k + r) }

  lemma SumOrder(e: word, f: word, w: word, k: word, r: word)
    ensures e + (f + w + k + r) == r + f + e + k + w
  {
  }

  lemma MacroSumIsSum(e: word, f: word, w: word, k: word, r: word)
    ensures MacroSum(e, f, w, k, r) == Sum5(r, f, e, k, w)
  {
    SumOrder(e, f, w, k, r);
  }

  /** Slot `k % 16` holds word `k` of the schedule for the last sixteen words before
      `t`, and the other slots hold the block as it was loaded. */
  ghost predicate Window(block: seq<octet>, buf: seq<word>, t: nat) {
    && |block| == BLOCK && |buf| == 16
    && (forall k :: 0 <= k < t && t <= k + 16 ==> buf[k % 16] == Sched(block, k))
    && (forall k :: t <= k < 16 ==>
          buf[k] == Load(block, k))
  }

  /** The macros B0 and B1: the next word of the schedule, kept in its slot. */
  method NextWord(buf: array<word>, t: nat, ghost block: seq<octet>) returns (w: word)
    requires buf.Length == 16 && |block| == BLOCK && Window(block, buf[..], t)
    modifies buf
    ensures w == Sched(block, t) && Window(block, buf[..], t + 1)
  {
    hide Rotl, Swap, LittleEndian, BigEndian, Window, Sched, Load, XorAll;
    if t < 16 {
      WindowLoaded(block, buf[..], t);
      SchedLoaded(block, t);
      w := Swap(buf[t]);
    } else {
      WindowRead(block, buf[..], t);
      SchedMixed(block, t);
      w := Rotl(XorAll(buf[t % 16], buf[(t - 14) % 16], buf[(t - 8) % 16], buf[(t - 3) % 16]), 1);
    }
    WindowNext(block, buf[..], t);
    buf[t % 16] := w;
  }

  function XorAll(a: word, b: word, c: word, d: word): word { a ^ b ^ c ^ d }

  lemma SchedLoaded(block: seq<octet>, t: nat)
    requires |block| == BLOCK && t < 16
    ensures Swap(Load(block, t)) == Sched(block, t)
  {
    hide Swap, LittleEndian, BigEndian;
    SwapLoad(block[4 * t], block[4 * t + 1], block[4 * t + 2], block[4 * t + 3]);
  }

  lemma SchedMixed(block: seq<octet>, t: nat)
    requires |block| == BLOCK && t >= 16
    ensures Rotl(XorAll(Sched(block, t - 16), Sched(block, t - 14), Sched(block, t - 8), Sched(block, t - 3)), 1) == Sched(block, t)
  {
    hide Rotl;
    XorOrder(Sched(block, t - 16), Sched(block, t - 14), Sched(block, t - 8), Sched(block, t - 3));
  }

  lemma WindowLoaded(block: seq<octet>, buf: seq<word>, t: nat)
    requires Window(block, buf, t) && t < 16
    ensures |block| == BLOCK && buf[t] == Load(block, t)
  {
  }

  lemma WindowRead(block: seq<octet>, buf: seq<word>, t: nat)
    requires Window(block, buf, t) && t >= 16
    ensures buf[t % 16] == Sched(block, t - 16) && buf[(t - 14) % 16] == Sched(block, t - 14)
    ensures buf[(t - 8) % 16] == Sched(block, t - 8) && buf[(t - 3) % 16] == Sched(block, t - 3)
  {
    hide Sched;
    assert (t - 16) % 16 == t % 16;
  }

  lemma WindowNext(block: seq<octet>, buf: seq<word>, t: nat)
    requires Window(block, buf, t)
    ensures Window(block, buf[t % 16 := Sched(block, t)], t + 1)
  {
    hide Sched;
    var after := buf[t % 16 := Sched(block, t)];
    forall k | 0 <= k < t + 1 && t + 1 <= k + 16 ensures after[k % 16] == Sched(block, k) {
      if k < t { assert k % 16 != t % 16; }
    }
  }

  lemma XorOrder(a: word, b: word, c: word, d: word)
    ensures a ^ b ^ c ^ d == d ^ c ^ b ^ a
  {
  }

  /** The new value of the variable in place `e`. */
  function NewE(t: nat, a: word, b: word, c: word, d: word, e: word, w: word): word {
    MacroSum(e, F(t, b, c, d), w, Konst(t), Rotl(a, 5))
  }

  lemma NewEIsRound(t: nat, r: Regs, w: word)
    ensures Regs(NewE(t, r.a, r.b, r.c, r.d, r.e, w), r.a, Rotl(r.b, 30), r.c, r.d) == Round(t, r, w)
  {
    hide F, Mix, Konst, Rotl, MacroSum, Sum5;
    FIsMix(t, r.b, r.c, r.d);
    MacroSumIsSum(r.e, F(t, r.b, r.c, r.d), w, Konst(t), Rotl(r.a, 5));
  }

  /** One of the macros R0 to R4: only the variables in places `e` and `b` change. */
  method Step(t: nat, a: word, b: word, c: word, d: word, e: word, buf: array<word>, ghost block: seq<octet>, ghost h: Regs)
    returns (e': word, b': word)
    requires buf.Length == 16 && Window(block, buf[..], t)
    requires Regs(a, b, c, d, e) == Rounds(block, h, t)
    modifies buf
    ensures Window(block, buf[..], t + 1)
    ensures Regs(e', a, b', c, d) == Rounds(block, h, t + 1)
  {
    assert |block| == BLOCK;
    hide Rotl, Window, Sched, NewE, Round;
    var w := NextWord(buf, t, block);
    NewEIsRound(t, Regs(a, b, c, d, e), w);
    e' := NewE(t, a, b, c, d, e, w);
    b' := Rotl(b, 30);
  }

  /** Five rounds with rotated names, after which every variable is back in its place. */
  method FiveSteps(t: nat, ghost h: Regs, buf: array<word>, r: Regs, ghost block: seq<octet>) returns (r': Regs)
    requires buf.Length == 16 && Window(block, buf[..], t) && r == Rounds(block, h, t)
    modifies buf
    ensures Window(block, buf[..], t + 5) && r' == Rounds(block, h, t + 5)
  {
    hide Window, Rounds;
    var a, b, c, d, e := r.a, r.b, r.c, r.d, r.e;
    e, b := Step(t, a, b, c, d, e, buf, block, h);
    d, a := Step(t + 1, e, a, b, c, d, buf, block, h);
    c, e := Step(t + 2, d, e, a, b, c, buf, block, h);
    b, d := Step(t + 3, c, d, e, a, b, buf, block, h);
    a, c := Step(t + 4, b, c, d, e, a, buf, block, h);
    r' := Regs(a, b, c, d, e);
  }

  /** The block as it is copied into the schedule. */
  function Load(data: seq<octet>, k: nat): word
    requires |data| == BLOCK && k < 16
  {
    LittleEndian(data[4 * k], data[4 * k + 1], data[4 * k + 2], data[4 * k + 3])
  }

  lemma WindowStart(data: seq<octet>, buf: seq<word>)
    requires |data| == BLOCK && |buf| == 16 && forall k :: 0 <= k < 16 ==> buf[k] == Load(data, k)
    ensures Window(data, buf, 0)
  {
    hide Load;
  }

  method LoadBlock(data: seq<octet>) returns (buf: array<word>)
    requires |data| == BLOCK
    ensures fresh(buf) && buf.Length == 16 && Window(data, buf[..], 0)
  {
    hide Load, Window;
    buf := new word[16](k requires 0 <= k < 16 => Load(data, k));
    WindowStart(data, buf[..]);
  }

  lemma CompressRounds(h: Regs, data: seq<octet>)
    requires |data| == BLOCK
    ensures Rounds(data, h, 0) == h && Compress(h, data) == AddRegs(h, Rounds(data, h, 80))
  {
    hide AddRegs, Round;
  }

  /** `tpm_sha1_transform`: eighty rounds with a circular schedule of sixteen words. */
  method Transform(h: Regs, data: seq<octet>) returns (h': Regs)
    requires |data| == BLOCK
    ensures h' == Compress(h, data)
  {
    hide Rounds, Load, AddRegs, Window, Compress;
    CompressRounds(h, data);
    var buf := LoadBlock(data);
    var r := h;
    var t := 0;
    while t < 80
      invariant 0 <= t <= 80 && t % 5 == 0
      invariant Window(data, buf[..], t) && r == Rounds(data, h, t)
    {
      r := FiveSteps(t, h, buf, r, data);
      t := t + 5;
    }
    h' := AddRegs(h, r);
  }

  // ------------------------------------------------------------------------
  // The context

  class Context {
    var h: Regs
    var countLo: nat
    var countHi: nat
    const buf: array<octet>
    ghost var fed: seq<octet>

    /** `tpm_sha1_init` */
    constructor ()
      ensures Valid() && fed == [] && fresh(buf)
    {
      hide Compress, Chained, INIT, Lo, Hi, Full, Tail;
      ChainedNone();
      NothingFed();
      h := INIT;
      countLo, countHi := 0, 0;
      buf := new octet[BLOCK];
      fed := [];
    }

    /** The context stands for the bytes it was fed. */
    ghost predicate Valid()
      reads this, buf
    {
      && buf.Length == BLOCK
      && h == Chained(Full(fed))
      && buf[..|fed| % BLOCK] == Tail(fed)
      && countLo == Lo(8 * |fed|) && countHi == Hi(8 * |fed|)
    }

    /** `memcpy` into the block buffer. */
    method Copy(at: nat, data: seq<octet>)
      requires at + |data| <= buf.Length
      modifies buf
      ensures buf[..at] == old(buf[..at]) && buf[at..at + |data|] == data
    {
      forall k | at <= k < at + |data| { buf[k] := data[k - at]; }
    }

    /** The begun block is completed with `n` bytes and transformed. */
    method FirstBlock(data: seq<octet>, n: nat)
      requires Valid() && n == BLOCK - |fed| % BLOCK && n <= |data|
      modifies this`h, buf
      ensures |fed + data[..n]| % BLOCK == 0 && h == Chained(fed + data[..n])
    {
      hide Compress, Chained, Lo, Hi;
      Completes(fed, data, n);
      Copy(BLOCK - n, data[..n]);
      assert buf[..] == Tail(fed) + data[..n];
      ChainedMore(Full(fed), buf[..]);
      h := Transform(h, buf[..]);
    }

    /** Whole blocks are transformed straight from the data. */
    method FullBlocks(data: seq<octet>, from: nat) returns (to: nat)
      requires from <= |data| && |fed + data[..from]| % BLOCK == 0
      requires h == Chained(fed + data[..from])
      modifies this`h
      ensures from <= to <= |data| < to + BLOCK && |fed + data[..to]| % BLOCK == 0
      ensures h == Chained(fed + data[..to])
    {
      hide Compress, Chained;
      to := from;
      while to + BLOCK <= |data|
        invariant from <= to <= |data| && |fed + data[..to]| % BLOCK == 0
        invariant h == Chained(fed + data[..to])
      {
        var block := data[to..to + BLOCK];
        assert fed + data[..to] + block == fed + data[..to + BLOCK];
        ChainedMore(fed + data[..to], block);
        h := Transform(h, block);
        to := to + BLOCK;
      }
    }

    /** `tpm_sha1_update`, the part that copies and transforms. */
    method Absorb(data: seq<octet>)
      requires Valid()
      modifies this`h, buf
      ensures h == Chained(Full(fed + data))
      ensures buf[..|fed + data| % BLOCK] == Tail(fed + data)
    {
      hide Compress, Chained;
      var off := countLo / 8 % BLOCK;
      assert off == |fed| % BLOCK by { LoBitsMod64(|fed|); }
      hide Lo, Hi;
      var dataOff := 0;
      if |data| + off >= BLOCK {
        FirstBlock(data, BLOCK - off);
        dataOff := FullBlocks(data, BLOCK - off);
        off := 0;
        Leaves(fed + data[..dataOff], data[dataOff..]);
        assert fed + data[..dataOff] + data[dataOff..] == fed + data;
      } else {
        Extends(fed, data);
        assert data[0..] == data;
      }
      Copy(off, data[dataOff..]);
    }

    /** `tpm_sha1_update` */
    method Update(data: seq<octet>)
      requires Valid()
      modifies this, buf
      ensures Valid() && fed == old(fed) + data
    {
      hide Compress, Lo, Hi, Chained, Full, Tail;
      Absorb(data);
      CountBits(|fed|, |data|);
      var lo := (countLo + 8 * |data|) % 0x1_0000_0000;
      countHi := (countHi + (if lo < countLo then 1 else 0) + |data| / 0x2000_0000) % 0x1_0000_0000;
      countLo := lo;
      fed := fed + data;
    }

    /** Zero bytes up to the place of the counter. */
    method FillZeros(ghost m: seq<octet>)
      requires Valid() && fed == m + [0x80]
      modifies this, buf
      ensures Valid() && fed == m + [0x80] + Zeros(PadZeros(|m|))
    {
      hide Compress, Lo, Hi, Chained, Full, Tail;
      ghost var k := 0;
      assert fed == m + [0x80] + Zeros(0);
      LoBitsMod64(|fed|);
      while countLo / 8 % BLOCK != 56
        invariant Valid() && k <= PadZeros(|m|)
        invariant fed == m + [0x80] + Zeros(k)
        invariant countLo / 8 % BLOCK == |fed| % BLOCK
        decreases PadZeros(|m|) - k
      {
        assert m + [0x80] + Zeros(k) + [0] == m + [0x80] + (Zeros(k) + [0]);
        Update([0]);
        LoBitsMod64(|fed|);
        k := k + 1;
      }
      PadExact(|m|, k);
    }

    /** `tpm_sha1_final`, the padding. */
    method Pad()
      requires Valid()
      modifies this, buf
      ensures Valid() && fed == Padded(old(fed))
    {
      hide Compress, Lo, Hi, WordBytes, WordOf, Chained;
      ghost var m := fed;
      var counter := WordBytes(WordOf(countHi)) + WordBytes(WordOf(countLo));
      Update([0x80]);
      FillZeros(m);
      Update(counter);
    }

    /** `tpm_sha1_final` */
    method Final() returns (digest: seq<octet>)
      requires Valid()
      modifies this, buf
      ensures digest == Hash(old(fed))
    {
      hide Compress, Padded, DigestBytes;
      Pad();
      assert Full(fed) == fed;
      digest := DigestBytes(h);
    }
  }

  lemma PadExact(n: nat, k: nat)
    requires k <= PadZeros(n) && (n + 1 + k) % BLOCK == 56
    ensures k == PadZeros(n)
  {
  }

  /** Any split of a message into updates gives the digest of the whole message. */
  method HashParts(parts: seq<seq<octet>>) returns (digest: seq<octet>)
    ensures digest == Hash(Concat(parts))
  {
    var ctx := new Context();
    for i := 0 to |parts|
      invariant ctx.Valid() && ctx.fed == Concat(parts[..i])
      invariant fresh(ctx) && fresh(ctx.buf)
    {
      assert parts[..i + 1][..i] == parts[..i];
      ctx.Update(parts[i]);
    }
    assert parts[..|parts|] == parts;
    digest := ctx.Final();
  }
}
