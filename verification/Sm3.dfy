/** SM3 and HMAC-SM3 (sm3_ext.c) against section 5 of GB/T 32905-2016 and section 2
    of RFC 2104. */
module Sm3 {
  import opened Base
  import opened Words
  import opened Counting

  // ------------------------------------------------------------------------
  // The standard

  datatype Regs = Regs(a: word, b: word, c: word, d: word, e: word, f: word, g: word, h: word)

  const INIT := Regs(0x7380166F, 0x4914B2B9, 0x172442D7, 0xDA8A0600, 0xA96F30BC, 0x163138AA, 0xE38DEE4D, 0xB0FB0E4E)

  /** Rotation by any amount, modulo the word size. */
  function RotlMod(x: word, n: nat): word { Rotl(x, (n % 32) as bv5) }

  function P0(x: word): word { x ^ Rotl(x, 9) ^ Rotl(x, 17) }

  function P1(x: word): word { x ^ Rotl(x, 15) ^ Rotl(x, 23) }

  function FF0(x: word, y: word, z: word): word { x ^ y ^ z }

  function FF1(x: word, y: word, z: word): word { (x & y) | (x & z) | (y & z) }

  function GG1(x: word, y: word, z: word): word { (x & y) | (!x & z) }

  function FF(j: nat, x: word, y: word, z: word): word { if j < 16 then FF0(x, y, z) else FF1(x, y, z) }

  function GG(j: nat, x: word, y: word, z: word): word { if j < 16 then FF0(x, y, z) else GG1(x, y, z) }

  function Tj(j: nat): word { if j < 16 then 0x79CC4519 else 0x7A879D8A }

  /** A word of the expansion from the five words it depends on. */
  function Expand(w16: word, w13: word, w9: word, w6: word, w3: word): word {
    P1(w16 ^ w9 ^ Rotl(w3, 15)) ^ (Rotl(w13, 7) ^ w6)
  }

  function Xor(x: word, y: word): word { x ^ y }

  /** Word `j` of the message expansion. */
  function Sched(block: seq<octet>, j: nat): word
    requires |block| == BLOCK
  {
    if j < 16 then BigEndian(block[4 * j], block[4 * j + 1], block[4 * j + 2], block[4 * j + 3])
    else Expand(Sched(block, j - 16), Sched(block, j - 13), Sched(block, j - 9), Sched(block, j - 6), Sched(block, j - 3))
  }

  function Sum3(x: word, y: word, z: word): word { x + y + z }

  function Sum4(x: word, y: word, z: word, u: word): word { x + y + z + u }

  /** One round with the words W and W'. */
  function Round(j: nat, r: Regs, w: word, w': word): Regs {
    var ss1 := Rotl(Sum3(Rotl(r.a, 12), r.e, RotlMod(Tj(j), j)), 7);
    var ss2 := Xor(ss1, Rotl(r.a, 12));
    var tt1 := Sum4(FF(j, r.a, r.b, r.c), r.d, ss2, w');
    var tt2 := Sum4(GG(j, r.e, r.f, r.g), r.h, ss1, w);
    Regs(tt1, r.a, Rotl(r.b, 9), r.c, P0(tt2), r.e, Rotl(r.f, 19), r.g)
  }

  function Rounds(block: seq<octet>, v: Regs, j: nat): Regs
    requires |block| == BLOCK
  {
    if j == 0 then v
    else Round(j - 1, Rounds(block, v, j - 1), Sched(block, j - 1), Xor(Sched(block, j - 1), Sched(block, j + 3)))
  }

  function XorRegs(r: Regs, v: Regs): Regs {
    Regs(r.a ^ v.a, r.b ^ v.b, r.c ^ v.c, r.d ^ v.d, r.e ^ v.e, r.f ^ v.f, r.g ^ v.g, r.h ^ v.h)
  }

  function Compress(v: Regs, block: seq<octet>): Regs {
    if |block| != BLOCK then v else XorRegs(v, Rounds(block, v, 64))
  }

  function DigestBytes(v: Regs): (d: seq<octet>)
    ensures |d| == 32
  {
    WordBytes(v.a) + WordBytes(v.b) + WordBytes(v.c) + WordBytes(v.d) +
    WordBytes(v.e) + WordBytes(v.f) + WordBytes(v.g) + WordBytes(v.h)
  }

  /** The chaining value after the blocks of `m`. */
  function Chained(m: seq<octet>): Regs
    requires |m| % BLOCK == 0
  {
    Fold(Compress, INIT, m)
  }

  lemma ChainedNone()
    ensures Chained([]) == INIT
  {
    hide Compress, INIT;
  }

  lemma ChainedMore(m: seq<octet>, block: seq<octet>)
    requires |m| % BLOCK == 0 && |block| == BLOCK
    ensures |m + block| % BLOCK == 0
    ensures Chained(m + block) == Compress(Chained(m), block)
  {
    hide Compress, INIT;
    FoldMore(Compress, INIT, m, block);
  }

  function Hash(m: seq<octet>): (d: seq<octet>)
    ensures |d| == 32
  {
    DigestBytes(Chained(Padded(m)))
  }

  /** The key filled up to one block, hashed first if it is longer. */
  function KeyBlock(key: seq<octet>): (k: seq<octet>)
    ensures |k| == BLOCK
  {
    if |key| > BLOCK then Hash(key) + Zeros(32) else key + Zeros(BLOCK - |key|)
  }

  function XorByte(a: octet, b: octet): octet { a ^ b }

  function XorAll(s: seq<octet>, c: octet): (r: seq<octet>)
    ensures |r| == |s|
  {
    if s == [] then [] else XorAll(s[..|s| - 1], c) + [XorByte(s[|s| - 1], c)]
  }

  function Hmac(key: seq<octet>, m: seq<octet>): seq<octet> {
    Hash(XorAll(KeyBlock(key), 0x5c) + Hash(XorAll(KeyBlock(key), 0x36) + m))
  }

  // ------------------------------------------------------------------------
  // The compression loops

  /** The two expansion loops of `sm3_process`. */
  method ExpandBlock(data: seq<octet>) returns (w: seq<word>, w': seq<word>)
    requires |data| == BLOCK
    ensures |w| == 68 && forall j :: 0 <= j < 68 ==> w[j] == Sched(data, j)
    ensures |w'| == 64 && forall j :: 0 <= j < 64 ==> w'[j] == Xor(Sched(data, j), Sched(data, j + 4))
  {
    hide BigEndian, Expand, Xor;
    w := [];
    while |w| < 16
      invariant |w| <= 16 && forall j :: 0 <= j < |w| ==> w[j] == Sched(data, j)
    {
      var j := |w|;
      w := w + [BigEndian(data[4 * j], data[4 * j + 1], data[4 * j + 2], data[4 * j + 3])];
    }
    while |w| < 68
      invariant 16 <= |w| <= 68 && forall j :: 0 <= j < |w| ==> w[j] == Sched(data, j)
    {
      var j := |w|;
      w := w + [Expand(w[j - 16], w[j - 13], w[j - 9], w[j - 6], w[j - 3])];
    }
    w' := [];
    while |w'| < 64
      invariant |w'| <= 64 && forall j :: 0 <= j < |w'| ==> w'[j] == Xor(Sched(data, j), Sched(data, j + 4))
    {
      w' := w' + [Xor(w[|w'|], w[|w'| + 4])];
    }
  }

  /** The registers moved in place, as both round loops of `sm3_process` move them; `ff`
      and `gg` are the mixed values of the loop. */
  method MoveRegisters(j: nat, r: Regs, ff: word, gg: word, w: word, w': word) returns (r': Regs)
    requires ff == FF(j, r.a, r.b, r.c) && gg == GG(j, r.e, r.f, r.g)
    ensures r' == Round(j, r, w, w')
  {
    hide Rotl, RotlMod, Tj, P0, Xor, Sum3, Sum4, FF, GG;
    var a, b, c, d, e, f, g, h := r.a, r.b, r.c, r.d, r.e, r.f, r.g, r.h;
    var ss1 := Rotl(Sum3(Rotl(a, 12), e, RotlMod(Tj(j), j)), 7);
    var ss2 := Xor(ss1, Rotl(a, 12));
    var tt1 := Sum4(ff, d, ss2, w');
    var tt2 := Sum4(gg, h, ss1, w);
    d := c;
    c := Rotl(b, 9);
    b := a;
    a := tt1;
    h := g;
    g := Rotl(f, 19);
    f := e;
    e := P0(tt2);
    r' := Regs(a, b, c, d, e, f, g, h);
  }

  /** `sm3_process`: sixteen rounds with one pair of mixing functions, the others with another. */
  method Process(v: Regs, data: seq<octet>) returns (v': Regs)
    requires |data| == BLOCK
    ensures v' == Compress(v, data)
  {
    hide Round, Sched, XorRegs, Xor, FF0, FF1, GG1;
    var w, w' := ExpandBlock(data);
    var r := v;
    var j := 0;
    while j < 16
      invariant 0 <= j <= 16 && r == Rounds(data, v, j)
    {
      r := MoveRegisters(j, r, FF0(r.a, r.b, r.c), FF0(r.e, r.f, r.g), w[j], w'[j]);
      j := j + 1;
    }
    while j < 64
      invariant 16 <= j <= 64 && r == Rounds(data, v, j)
    {
      r := MoveRegisters(j, r, FF1(r.a, r.b, r.c), GG1(r.e, r.f, r.g), w[j], w'[j]);
      j := j + 1;
    }
    v' := XorRegs(v, r);
  }

  // ------------------------------------------------------------------------
  // The context

  class Context {
    var state: Regs
    var total0: nat
    var total1: nat
    const buffer: array<octet>
    var ipad: seq<octet>
    var opad: seq<octet>
    ghost var fed: seq<octet>

    constructor ()
      ensures Valid() && fed == [] && fresh(buffer)
    {
      hide Compress, Chained, INIT, Lo, Hi, Full, Tail;
      ChainedNone();
      NothingFed();
      state := INIT;
      total0, total1 := 0, 0;
      buffer := new octet[BLOCK];
      ipad, opad := [], [];
      fed := [];
    }

    /** The context stands for the bytes it was fed. */
    ghost predicate Valid()
      reads this, buffer
    {
      && buffer.Length == BLOCK
      && state == Chained(Full(fed))
      && buffer[..|fed| % BLOCK] == Tail(fed)
      && total0 == Lo(|fed|) && total1 == Hi(|fed|)
    }

    /** `sm3_starts_ext` */
    method Start()
      requires buffer.Length == BLOCK
      modifies this`state, this`total0, this`total1, this`fed
      ensures Valid() && fed == []
    {
      hide Compress, Chained, INIT, Lo, Hi, Full, Tail;
      ChainedNone();
      NothingFed();
      state := INIT;
      total0, total1 := 0, 0;
      fed := [];
      assert buffer[..0] == [];
    }

    /** `memcpy` into the block buffer. */
    method Copy(at: nat, data: seq<octet>)
      requires at + |data| <= buffer.Length
      modifies buffer
      ensures buffer[..at] == old(buffer[..at]) && buffer[at..at + |data|] == data
    {
      forall k | at <= k < at + |data| { buffer[k] := data[k - at]; }
    }

    /** The begun block is completed with `n` bytes and processed. */
    method FirstBlock(data: seq<octet>, n: nat)
      requires Valid() && n == BLOCK - |fed| % BLOCK && n <= |data|
      modifies this`state, buffer
      ensures |fed + data[..n]| % BLOCK == 0 && state == Chained(fed + data[..n])
    {
      hide Compress, Chained, Lo, Hi;
      Completes(fed, data, n);
      Copy(BLOCK - n, data[..n]);
      assert buffer[..] == Tail(fed) + data[..n];
      ChainedMore(Full(fed), buffer[..]);
      state := Process(state, buffer[..]);
    }

    /** Whole blocks are processed straight from the input. */
    method FullBlocks(data: seq<octet>, from: nat) returns (to: nat)
      requires from <= |data| && |fed + data[..from]| % BLOCK == 0
      requires state == Chained(fed + data[..from])
      modifies this`state
      ensures from <= to <= |data| < to + BLOCK && |fed + data[..to]| % BLOCK == 0
      ensures state == Chained(fed + data[..to])
    {
      hide Compress, Chained;
      to := from;
      while |data| - to >= BLOCK
        invariant from <= to <= |data| && |fed + data[..to]| % BLOCK == 0
        invariant state == Chained(fed + data[..to])
      {
        var block := data[to..to + BLOCK];
        assert fed + data[..to] + block == fed + data[..to + BLOCK];
        ChainedMore(fed + data[..to], block);
        state := Process(state, block);
        to := to + BLOCK;
      }
    }

    /** The blocks of `sm3_update_ext`: unlike a begun block, an empty buffer is
        passed over. */
    method Absorb(data: seq<octet>, left: nat)
      requires Valid() && left == |fed| % BLOCK
      modifies this`state, buffer
      ensures state == Chained(Full(fed + data))
      ensures buffer[..|fed + data| % BLOCK] == Tail(fed + data)
    {
      hide Compress, Chained, Lo, Hi;
      if left + |data| < BLOCK {
        Extends(fed, data);
        Copy(left, data);
      } else {
        var from := 0;
        if left != 0 {
          from := BLOCK - left;
          FirstBlock(data, from);
        } else {
          assert data[..0] == [] && fed + [] == fed && Full(fed) == fed;
        }
        var to := FullBlocks(data, from);
        Leaves(fed + data[..to], data[to..]);
        assert fed + data[..to] + data[to..] == fed + data;
        Copy(0, data[to..]);
      }
    }

    /** `sm3_update_ext`, for lengths of type `int`. */
    method Update(data: seq<octet>)
      requires Valid() && |data| < 0x8000_0000
      modifies this`state, this`total0, this`total1, this`fed, buffer
      ensures Valid() && fed == old(fed) + data
    {
      hide Compress, Lo, Hi, Chained, Full, Tail;
      if |data| == 0 {
        assert fed + data == fed;
        return;
      }
      LoMod64(|fed|);
      CountBytes(|fed|, |data|);
      Absorb(data, total0 % BLOCK);
      total0 := (total0 + |data|) % 0x1_0000_0000;
      if total0 < |data| { total1 := (total1 + 1) % 0x1_0000_0000; }
      fed := fed + data;
    }

    /** The length in bits from the two byte counters. */
    method LengthField() returns (msglen: seq<octet>)
      requires Valid()
      ensures msglen == Length64(8 * |fed|)
    {
      hide Compress, WordBytes, WordOf, Chained, Full, Tail, Lo, Hi;
      var high := (total1 * 8 + total0 / 0x2000_0000) % 0x1_0000_0000;
      var low := total0 * 8 % 0x1_0000_0000;
      assert high == Hi(8 * |fed|) && low == Lo(8 * |fed|) by { BitsOfBytes(|fed|); }
      msglen := WordBytes(WordOf(high)) + WordBytes(WordOf(low));
    }

    /** The end mark and the zeros, as many as the place in the block asks for. */
    method EndMark() returns (pad: seq<octet>)
      requires Valid()
      ensures pad == [0x80] + Zeros(PadZeros(|fed|))
    {
      hide Compress, Lo, Hi, Chained, Full, Tail;
      LoMod64(|fed|);
      var last := total0 % BLOCK;
      var padn := if last < 56 then 56 - last else 120 - last;
      var padding := [0x80] + Zeros(63);
      ZerosPrefix(63, padn - 1);
      pad := padding[..padn];
    }

    /** The padding of `sm3_finish_ext`: the end mark and zeros in one update, then
        the length. */
    method Pad()
      requires Valid()
      modifies this`state, this`total0, this`total1, this`fed, buffer
      ensures Valid() && fed == Padded(old(fed))
    {
      hide Compress, Lo, Hi, Length64, Chained, Full, Tail;
      var msglen := LengthField();
      var pad := EndMark();
      assert fed + pad + msglen == fed + [0x80] + Zeros(PadZeros(|fed|)) + msglen;
      Update(pad);
      Update(msglen);
    }

    /** `sm3_finish_ext` */
    method Finish() returns (output: seq<octet>)
      requires Valid()
      modifies this`state, this`total0, this`total1, this`fed, buffer
      ensures output == Hash(old(fed)) && buffer.Length == BLOCK
    {
      hide Compress, Padded, DigestBytes;
      Pad();
      assert Full(fed) == fed;
      output := DigestBytes(state);
    }
  }

  lemma {:induction false} ZerosPrefix(n: nat, k: nat)
    requires k <= n
    ensures Zeros(n)[..k] == Zeros(k)
    decreases n
  {
    if k < n { ZerosPrefix(n - 1, k); }
  }

  /** Any split of a message into updates gives the digest of the whole message. */
  method HashParts(parts: seq<seq<octet>>) returns (digest: seq<octet>)
    requires forall i :: 0 <= i < |parts| ==> |parts[i]| < 0x8000_0000
    ensures digest == Hash(Concat(parts))
  {
    hide Compress, Hash, Chained, Full, Tail, Lo, Hi;
    var ctx := new Context();
    for i := 0 to |parts|
      invariant ctx.Valid() && ctx.fed == Concat(parts[..i])
      invariant fresh(ctx) && fresh(ctx.buffer)
    {
      assert parts[..i + 1][..i] == parts[..i];
      ctx.Update(parts[i]);
    }
    assert parts[..|parts|] == parts;
    digest := ctx.Finish();
  }

  // ------------------------------------------------------------------------
  // HMAC

  /** The key block in front of the pads: keys of one block and of less are used as
      they are, longer ones are hashed; zeros behind them change no pad byte. */
  lemma {:induction false} XorAllPrefix(key: seq<octet>, n: nat, c: octet)
    ensures XorAll(key + Zeros(n), c) == XorAll(key, c) + Fill(c, n)
    decreases n
  {
    if n == 0 {
      assert key + [] == key && XorAll(key, c) + [] == XorAll(key, c);
    } else {
      var s := key + Zeros(n);
      assert s[..|s| - 1] == key + Zeros(n - 1) && s[|s| - 1] == 0;
      XorAllPrefix(key, n - 1, c);
      ZeroXor(c);
      assert XorAll(key, c) + Fill(c, n - 1) + [c] == XorAll(key, c) + (Fill(c, n - 1) + [c]);
    }
  }

  lemma ZeroXor(c: octet)
    ensures XorByte(0, c) == c
  {
  }

  function Fill(c: octet, n: nat): (r: seq<octet>)
    ensures |r| == n && forall k :: 0 <= k < n ==> r[k] == c
  {
    if n == 0 then [] else Fill(c, n - 1) + [c]
  }

  lemma {:induction false} XorAllAt(s: seq<octet>, c: octet, k: nat)
    requires k < |s|
    ensures XorAll(s, c)[k] == XorByte(s[k], c)
  {
    if k < |s| - 1 { XorAllAt(s[..|s| - 1], c, k); }
  }

  /** The pad loop of `SM3_hmac_init`: the pad byte, with the key over its front. */
  method MakePad(c: octet, key: seq<octet>) returns (pad: seq<octet>)
    requires |key| <= BLOCK
    ensures pad == XorAll(key + Zeros(BLOCK - |key|), c)
  {
    hide XorByte, XorAll;
    pad := Fill(c, BLOCK);
    var i := 0;
    while i < |key|
      invariant 0 <= i <= |key| && |pad| == BLOCK
      invariant forall k :: 0 <= k < i ==> pad[k] == XorByte(c, key[k])
      invariant forall k :: i <= k < BLOCK ==> pad[k] == c
    {
      pad := pad[i := XorByte(pad[i], key[i])];
      i := i + 1;
    }
    XorAllPrefix(key, BLOCK - |key|, c);
    forall k | 0 <= k < |key| ensures pad[k] == XorAll(key, c)[k] {
      XorAllAt(key, c, k);
      XorSym(c, key[k]);
    }
    assert pad == XorAll(key, c) + Fill(c, BLOCK - |key|);
  }

  lemma XorSym(a: octet, b: octet)
    ensures XorByte(a, b) == XorByte(b, a)
  {
  }

  /** `SM3_hmac_init` */
  method HmacInit(ctx: Context, key: seq<octet>)
    requires ctx.buffer.Length == BLOCK && |key| < 0x8000_0000
    modifies ctx, ctx.buffer
    ensures ctx.Valid() && ctx.fed == XorAll(KeyBlock(key), 0x36) && ctx.opad == XorAll(KeyBlock(key), 0x5c)
  {
    hide Compress, XorAll, Hash, Chained, Full, Tail, Lo, Hi;
    var k := key;
    if |key| > BLOCK {
      k := HashParts([key]);
      assert [key][..0] == [] && [] + key == key;
      assert Concat([key]) == key;
    }
    ctx.ipad := MakePad(0x36, k);
    ctx.opad := MakePad(0x5c, k);
    ctx.Start();
    ctx.Update(ctx.ipad);
    assert [] + ctx.ipad == ctx.ipad;
  }

  /** `SM3_hmac_finish` */
  method HmacFinish(ctx: Context) returns (output: seq<octet>)
    requires ctx.Valid() && |ctx.opad| == BLOCK
    modifies ctx, ctx.buffer
    ensures output == Hash(old(ctx.opad) + Hash(old(ctx.fed)))
  {
    hide Compress, Hash, Chained, Full, Tail, Lo, Hi;
    var inner := ctx.Finish();
    ctx.Start();
    ctx.Update(ctx.opad);
    ctx.Update(inner);
    assert [] + ctx.opad + inner == ctx.opad + inner;
    output := ctx.Finish();
  }

  /** `SM3_hmac`, with the message fed in any number of updates. */
  method HmacParts(key: seq<octet>, parts: seq<seq<octet>>) returns (output: seq<octet>)
    requires |key| < 0x8000_0000
    requires forall i :: 0 <= i < |parts| ==> |parts[i]| < 0x8000_0000
    ensures output == Hmac(key, Concat(parts))
  {
    hide Compress, Hash, XorAll, KeyBlock, Chained, Full, Tail, Lo, Hi;
    var ctx := new Context();
    HmacInit(ctx, key);
    ghost var inner := ctx.fed;
    ghost var outer := ctx.opad;
    assert inner + [] == inner;
    for i := 0 to |parts|
      invariant ctx.Valid() && ctx.fed == inner + Concat(parts[..i]) && ctx.opad == outer
      invariant fresh(ctx) && fresh(ctx.buffer)
    {
      assert parts[..i + 1][..i] == parts[..i];
      assert inner + Concat(parts[..i]) + parts[i] == inner + (Concat(parts[..i]) + parts[i]);
      ctx.Update(parts[i]);
    }
    assert parts[..|parts|] == parts;
    output := HmacFinish(ctx);
  }
}
