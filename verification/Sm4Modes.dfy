/** The modes of SM4: ECB and CBC over buffers (sm4.c), and the block mode with a
    masked tail that the library offers (crypto_func.c). */
module Sm4Modes {
  import opened Base
  import opened Words
  import opened Sm4

  const B: nat := 16

  function Mask(x: octet, y: octet): octet { x ^ y }

  /** Byte-wise exclusive or with the first bytes of `m`. */
  function Masked(b: seq<octet>, m: seq<octet>): (r: seq<octet>)
    requires |b| <= |m|
    ensures |r| == |b| && forall k :: 0 <= k < |b| ==> r[k] == b[k] ^ m[k]
  {
    seq(|b|, k requires 0 <= k < |b| => b[k] ^ m[k])
  }

  lemma MaskBack(x: octet, y: octet)
    ensures (x ^ y) ^ y == x && x ^ (x ^ y) == y
  {
  }

  lemma MaskedBack(b: seq<octet>, m: seq<octet>)
    requires |b| <= |m|
    ensures Masked(Masked(b, m), m) == b
  {
    forall k | 0 <= k < |b|
      ensures Masked(Masked(b, m), m)[k] == b[k]
    {
      MaskBack(b[k], m[k]);
    }
  }

  // ------------------------------------------------------------------------
  // The modes as functions of whole blocks

  predicate Whole(data: seq<octet>) { |data| % B == 0 }

  function Ecb(box: Box, rk: seq<word>, data: seq<octet>): (c: seq<octet>)
    requires |rk| == 32 && Whole(data)
    ensures |c| == |data|
  {
    if data == [] then [] else Crypt(box, rk, data[..B]) + Ecb(box, rk, data[B..])
  }

  /** Section 6.2 of NIST SP 800-38A: every plain block is masked with the cipher block
      before it. */
  function CbcEnc(box: Box, rk: seq<word>, iv: seq<octet>, data: seq<octet>): (c: seq<octet>)
    requires |rk| == 32 && |iv| == B && Whole(data)
    ensures |c| == |data|
    decreases |data|
  {
    if data == [] then []
    else
      var c := Crypt(box, rk, Masked(data[..B], iv));
      c + CbcEnc(box, rk, c, data[B..])
  }

  function CbcDec(box: Box, rk: seq<word>, iv: seq<octet>, data: seq<octet>): (p: seq<octet>)
    requires |rk| == 32 && |iv| == B && Whole(data)
    ensures |p| == |data|
    decreases |data|
  {
    if data == [] then []
    else Masked(Crypt(box, rk, data[..B]), iv) + CbcDec(box, rk, data[..B], data[B..])
  }

  // ------------------------------------------------------------------------
  // What the modes make of each block

  /** `x` is the byte-wise exclusive or of `p` and `m`. */
  predicate IsXor(x: seq<octet>, p: seq<octet>, m: seq<octet>) {
    |x| == |p| == |m| && forall j :: 0 <= j < |x| ==> x[j] == p[j] ^ m[j]
  }

  function BlockAt(data: seq<octet>, i: nat): (b: seq<octet>)
    requires 16 * i + 16 <= |data|
    ensures |b| == 16
  {
    data[16 * i..16 * i + 16]
  }

  /** The cipher block before block `i`, or the vector. */
  function Before(iv: seq<octet>, c: seq<octet>, i: nat): seq<octet>
    requires 16 * i <= |c|
  {
    if i == 0 then iv else BlockAt(c, i - 1)
  }

  /** Cipher block `i` is the cipher of plain block `i` xored with the cipher block before it. */
  ghost predicate Chained(box: Box, rk: seq<word>, iv: seq<octet>, data: seq<octet>, c: seq<octet>)
    requires |rk| == 32
  {
    |c| == |data| &&
    forall i: nat, x: seq<octet> :: 16 * i + 16 <= |data| && |x| == 16 && IsXor(x, BlockAt(data, i), Before(iv, c, i)) ==>
      BlockAt(c, i) == Crypt(box, rk, x)
  }

  /** Plain block `i` is the cipher of cipher block `i`, xored with the cipher block before it. */
  ghost predicate Unchained(box: Box, rk: seq<word>, iv: seq<octet>, c: seq<octet>, data: seq<octet>)
    requires |rk| == 32
  {
    |data| == |c| &&
    forall i: nat :: 16 * i + 16 <= |c| ==> IsXor(BlockAt(data, i), Crypt(box, rk, BlockAt(c, i)), Before(iv, c, i))
  }

  lemma BlockBehind(b: seq<octet>, rest: seq<octet>, iv: seq<octet>, i: nat)
    requires |b| == 16 && i > 0 && 16 * i <= |rest| + 16
    ensures Before(iv, b + rest, i) == Before(b, rest, i - 1)
    ensures 16 * i <= |rest| ==> BlockAt(b + rest, i) == BlockAt(rest, i - 1)
  {
    if i > 1 { assert (b + rest)[16 * i - 16..16 * i] == rest[16 * i - 32..16 * i - 16]; }
    if 16 * i <= |rest| { assert (b + rest)[16 * i..16 * i + 16] == rest[16 * (i - 1)..16 * (i - 1) + 16]; }
  }

  lemma BlockSuffix(data: seq<octet>, i: nat)
    requires i > 0 && 16 * i + 16 <= |data|
    ensures BlockAt(data, i) == BlockAt(data[B..], i - 1) && BlockAt(data, 0) == data[..B]
  {
    assert data[B..][16 * (i - 1)..16 * (i - 1) + 16] == data[16 * i..16 * i + 16];
  }

  lemma XorIs(x: seq<octet>, b: seq<octet>, m: seq<octet>)
    requires IsXor(x, b, m)
    ensures x == Masked(b, m)
  {
  }

  lemma {:induction false} CbcEncBlocks(box: Box, rk: seq<word>, iv: seq<octet>, data: seq<octet>)
    requires |rk| == 32 && |iv| == B && Whole(data)
    ensures Chained(box, rk, iv, data, CbcEnc(box, rk, iv, data))
    decreases |data|
  {
    hide Crypt, IsXor, BlockAt, Before;
    if data != [] {
      var c := Crypt(box, rk, Masked(data[..B], iv));
      var rest := CbcEnc(box, rk, c, data[B..]);
      CbcEncBlocks(box, rk, c, data[B..]);
      forall i: nat, x: seq<octet> | 16 * i + 16 <= |data| && |x| == 16 && IsXor(x, BlockAt(data, i), Before(iv, c + rest, i))
        ensures BlockAt(c + rest, i) == Crypt(box, rk, x)
      {
        if i == 0 {
          FirstBlock(iv, data, c, rest);
          XorIs(x, data[..B], iv);
        } else {
          BlockSuffix(data, i);
          BlockBehind(c, rest, iv, i);
        }
      }
    }
  }

  lemma FirstBlock(iv: seq<octet>, data: seq<octet>, c: seq<octet>, rest: seq<octet>)
    requires |c| == 16 && 16 <= |data|
    ensures BlockAt(data, 0) == data[..B] && BlockAt(c + rest, 0) == c && Before(iv, c + rest, 0) == iv
    ensures Before(iv, data, 0) == iv
  {
  }

  lemma MaskedIs(b: seq<octet>, m: seq<octet>)
    requires |b| == |m|
    ensures IsXor(Masked(b, m), b, m)
  {
  }

  lemma SuffixBefore(iv: seq<octet>, c: seq<octet>, i: nat)
    requires i > 0 && 16 * i + 16 <= |c|
    ensures Before(iv, c, i) == Before(c[..B], c[B..], i - 1)
  {
    if i > 1 { assert c[B..][16 * (i - 2)..16 * (i - 2) + 16] == c[16 * (i - 1)..16 * (i - 1) + 16]; }
  }

  lemma {:induction false} CbcDecBlocks(box: Box, rk: seq<word>, iv: seq<octet>, c: seq<octet>)
    requires |rk| == 32 && |iv| == B && Whole(c)
    ensures Unchained(box, rk, iv, c, CbcDec(box, rk, iv, c))
    decreases |c|
  {
    hide Crypt, IsXor, BlockAt, Before, Masked;
    if c != [] {
      var p := Masked(Crypt(box, rk, c[..B]), iv);
      var rest := CbcDec(box, rk, c[..B], c[B..]);
      CbcDecBlocks(box, rk, c[..B], c[B..]);
      forall i: nat | 16 * i + 16 <= |c|
        ensures IsXor(BlockAt(p + rest, i), Crypt(box, rk, BlockAt(c, i)), Before(iv, c, i))
      {
        if i == 0 {
          FirstBlock(iv, c, p, rest);
          MaskedIs(Crypt(box, rk, c[..B]), iv);
        } else {
          BlockSuffix(c, i);
          SuffixBefore(iv, c, i);
          BlockBehind(p, rest, iv, i);
        }
      }
    }
  }

  lemma MaskedSame(b: seq<octet>, m: seq<octet>, n: seq<octet>)
    requires |b| == |m| == |n| && Masked(b, m) == Masked(b, n)
    ensures m == n
  {
    forall k | 0 <= k < |b|
      ensures m[k] == n[k]
    {
      assert Masked(b, m)[k] == b[k] ^ m[k] && Masked(b, n)[k] == b[k] ^ n[k];
      MaskBack(b[k], m[k]);
      MaskBack(b[k], n[k]);
    }
  }

  /** No two vectors give the same cipher text, unless the text is empty. */
  lemma VectorMatters(box: Box, rk: seq<word>, iv: seq<octet>, other: seq<octet>, data: seq<octet>)
    requires |rk| == 32 && |iv| == |other| == B && Whole(data) && data != []
    ensures CbcEnc(box, rk, iv, data) == CbcEnc(box, rk, other, data) <==> iv == other
  {
    hide Crypt, Masked;
    var x, y := Masked(data[..B], iv), Masked(data[..B], other);
    if CbcEnc(box, rk, iv, data) == CbcEnc(box, rk, other, data) {
      assert CbcEnc(box, rk, iv, data)[..B] == Crypt(box, rk, x);
      assert CbcEnc(box, rk, other, data)[..B] == Crypt(box, rk, y);
      CryptInverse(box, rk, x);
      CryptInverse(box, rk, y);
      MaskedSame(data[..B], iv, other);
    }
  }

  /** The vector left behind by cipher text `c`: its last block. */
  function NextIv(iv: seq<octet>, c: seq<octet>): (r: seq<octet>)
    requires |iv| == B && Whole(c)
    ensures |r| == B
  {
    if c == [] then iv else c[|c| - B..]
  }

  lemma {:induction false} EcbInverse(box: Box, rk: seq<word>, data: seq<octet>)
    requires |rk| == 32 && Whole(data)
    ensures Ecb(box, Reverse(rk), Ecb(box, rk, data)) == data
  {
    hide Crypt;
    if data != [] {
      var c := Crypt(box, rk, data[..B]);
      CryptInverse(box, rk, data[..B]);
      EcbInverse(box, rk, data[B..]);
      Front(c, Ecb(box, rk, data[B..]));
    }
  }

  lemma Front(b: seq<octet>, rest: seq<octet>)
    requires |b| == B
    ensures (b + rest)[..B] == b && (b + rest)[B..] == rest
  {
  }

  /** CBC decryption undoes CBC encryption, for every S-box, key and vector and any
      number of blocks. */
  lemma {:induction false} CbcInverse(box: Box, rk: seq<word>, iv: seq<octet>, data: seq<octet>)
    requires |rk| == 32 && |iv| == B && Whole(data)
    ensures CbcDec(box, Reverse(rk), iv, CbcEnc(box, rk, iv, data)) == data
    decreases |data|
  {
    hide Crypt;
    if data != [] {
      var p := data[..B];
      var c := Crypt(box, rk, Masked(p, iv));
      CryptInverse(box, rk, Masked(p, iv));
      MaskedBack(p, iv);
      CbcInverse(box, rk, c, data[B..]);
      Front(c, CbcEnc(box, rk, c, data[B..]));
    }
  }

  lemma {:induction false} CbcEncSplit(box: Box, rk: seq<word>, iv: seq<octet>, a: seq<octet>, b: seq<octet>)
    requires |rk| == 32 && |iv| == B && Whole(a) && Whole(b)
    ensures Whole(a + b)
    ensures CbcEnc(box, rk, iv, a + b) ==
            CbcEnc(box, rk, iv, a) + CbcEnc(box, rk, NextIv(iv, CbcEnc(box, rk, iv, a)), b)
    decreases |a|
  {
    hide Crypt, NextIv, Masked;
    if a == [] {
      NextIvStart(iv);
      assert a + b == b;
    } else {
      assert (a + b)[..B] == a[..B] && (a + b)[B..] == a[B..] + b;
      var c := Crypt(box, rk, Masked(a[..B], iv));
      CbcEncSplit(box, rk, c, a[B..], b);
      NextIvBehind(iv, c, CbcEnc(box, rk, c, a[B..]));
      Assoc(c, CbcEnc(box, rk, c, a[B..]), CbcEnc(box, rk, NextIv(iv, CbcEnc(box, rk, iv, a)), b));
    }
  }

  lemma {:induction false} CbcDecSplit(box: Box, rk: seq<word>, iv: seq<octet>, a: seq<octet>, b: seq<octet>)
    requires |rk| == 32 && |iv| == B && Whole(a) && Whole(b)
    ensures Whole(a + b)
    ensures CbcDec(box, rk, iv, a + b) == CbcDec(box, rk, iv, a) + CbcDec(box, rk, NextIv(iv, a), b)
    decreases |a|
  {
    hide Crypt, NextIv, Masked;
    if a == [] {
      NextIvStart(iv);
      assert a + b == b;
    } else {
      assert (a + b)[..B] == a[..B] && (a + b)[B..] == a[B..] + b;
      CbcDecSplit(box, rk, a[..B], a[B..], b);
      NextIvBehind(iv, a[..B], a[B..]);
      assert a[..B] + a[B..] == a;
      Assoc(Masked(Crypt(box, rk, a[..B]), iv), CbcDec(box, rk, a[..B], a[B..]), CbcDec(box, rk, NextIv(iv, a), b));
    }
  }

  lemma NextIvStart(iv: seq<octet>)
    requires |iv| == B
    ensures NextIv(iv, []) == iv
  {
  }

  lemma NextIvBehind(iv: seq<octet>, c: seq<octet>, rest: seq<octet>)
    requires |iv| == B && |c| == B && Whole(rest)
    ensures Whole(c + rest) && NextIv(iv, c + rest) == NextIv(c, rest)
  {
  }

  // ------------------------------------------------------------------------
  // The modes in place

  /** Bytes touched by a loop that counts `length` down by 16. */
  function Span(length: int): (n: nat)
    ensures n % B == 0 && length <= n
    ensures length > 0 ==> n < length + B
    ensures length <= 0 ==> n == 0
  {
    if length <= 0 then 0 else (length + 15) / 16 * 16
  }

  lemma SpanStep(length: int)
    requires length > 0
    ensures Span(length) == B + Span(length - B)
  {
  }

  class Context {
    const box: Box
    var encrypting: bool
    const sk: array<ulong>

    ghost predicate Valid() { sk.Length == 32 }

    ghost function Keys(): (rk: seq<word>)
      requires Valid()
      reads sk
      ensures |rk| == 32
    {
      Lows(sk[..])
    }

    constructor (box: Box)
      ensures Valid() && this.box == box && fresh(sk)
    {
      this.box := box;
      encrypting := false;
      sk := new ulong[32];
    }

    method SetKeyEnc(key: array<octet>)
      requires Valid() && key.Length >= 16
      modifies this, sk
      ensures Keys() == RoundKeys(box, key[..16])
    {
      encrypting := true;
      SetKey(box, sk, key);
    }

    /** The exchanges reverse the schedule. */
    method SetKeyDec(key: array<octet>)
      requires Valid() && key.Length >= 16
      modifies this, sk
      ensures Keys() == Reverse(RoundKeys(box, key[..16]))
    {
      hide Lows, Reverse;
      encrypting := true;
      SetKey(box, sk, key);
      ghost var s := sk[..];
      SwapKeys(sk);
      ReverseLows(s, sk[..]);
    }

    method CryptEcb(length: int, input: array<octet>, at: nat, output: array<octet>, to: nat)
      requires Valid() && at + Span(length) <= input.Length && to + Span(length) <= output.Length
      requires input != output || at == to
      modifies output
      ensures output[..] == Patch(old(output[..]), to, Ecb(box, Keys(), old(input[at..at + Span(length)])))
    {
      hide Crypt, Patch, Ecb, Span, Lows;
      ghost var in0, out0, data := input[..], output[..], input[at..at + Span(length)];
      ghost var rk := Keys();
      ghost var done: seq<octet> := [];
      PatchNone(out0, to);
      var left, i := length, 0;
      while left > 0
        invariant Span(length) == i + Span(left) && i == |done|
        invariant Keys() == rk
        invariant output[..] == Patch(out0, to, done)
        invariant input[..] == if input == output then Patch(out0, to, done) else in0
        invariant Ecb(box, rk, data) == done + Ecb(box, rk, data[i..])
      {
        SpanStep(left);
        if input == output { Unread(out0, to, done, at + i); }
        BlockOf(in0, at, Span(length), i);
        ghost var c := EcbNext(box, rk, data, i, done, out0, to);
        OneRound(box, sk, input, at + i, output, to + i);
        done := done + c;
        i := i + B;
        left := left - B;
      }
      EcbEnd(box, rk, data[i..], done);
    }
  
    method EncryptBlock(iv: array<octet>, input: array<octet>, at: nat, output: array<octet>, to: nat)
      requires Valid() && iv.Length == B && iv != output && iv != input
      requires at + B <= input.Length && to + B <= output.Length && (input != output || at == to)
      modifies output, iv
      ensures iv[..] == Crypt(box, Keys(), Masked(old(input[at..at + B]), old(iv[..])))
      ensures output[..] == Patch(old(output[..]), to, iv[..])
    {
      hide Crypt, Patch, Lows;
      ghost var m := Masked(input[at..at + B], iv[..]);
      ghost var out := output[..];
      MaskBlock(iv, input, at, output, to);
      Patched(out, to, m);
      OneRound(box, sk, output, to, output, to);
      ghost var c := Crypt(box, Keys(), m);
      PatchOver(out, to, m, c);
      Patched(out, to, c);
      CopyBlock(output, to, iv);
    }

    method DecryptBlock(iv: array<octet>, input: array<octet>, at: nat, output: array<octet>, to: nat)
      requires Valid() && iv.Length == B && iv != output && iv != input
      requires at + B <= input.Length && to + B <= output.Length && (input != output || at == to)
      modifies output, iv
      ensures iv[..] == old(input[at..at + B])
      ensures output[..] == Patch(old(output[..]), to, Masked(Crypt(box, Keys(), iv[..]), old(iv[..])))
    {
      hide Crypt, Patch, Lows;
      ghost var c := Crypt(box, Keys(), input[at..at + B]);
      ghost var out, iv0 := output[..], iv[..];
      var temp := new octet[B];
      CopyBlock(input, at, temp);
      OneRound(box, sk, input, at, output, to);
      Patched(out, to, c);
      MaskBlock(iv, output, to, output, to);
      PatchOver(out, to, c, Masked(c, iv0));
      CopyBlock(temp, 0, iv);
      assert temp[..] == temp[0..B];
    }

    /** CBC encryption; `iv` is left as the next call needs it. */
    method EncryptCbc(length: int, iv: array<octet>, input: array<octet>, at: nat, output: array<octet>, to: nat)
      requires Valid() && iv.Length == B && iv != output && iv != input
      requires at + Span(length) <= input.Length && to + Span(length) <= output.Length && (input != output || at == to)
      modifies output, iv
      ensures var c := CbcEnc(box, Keys(), old(iv[..]), old(input[at..at + Span(length)]));
        output[..] == Patch(old(output[..]), to, c) && iv[..] == NextIv(old(iv[..]), c)
      ensures Chained(box, Keys(), old(iv[..]), old(input[at..at + Span(length)]), output[to..to + Span(length)])
    {
      hide Crypt, Patch, CbcEnc, Span, Lows, Masked, NextIv, Chained;
      ghost var in0, out0, iv0, data := input[..], output[..], iv[..], input[at..at + Span(length)];
      ghost var rk, cur := Keys(), iv0;
      ghost var done: seq<octet> := [];
      PatchNone(out0, to);
      Start(box, rk, iv0, data);
      var left, i := length, 0;
      while left > 0
        invariant Span(length) == i + Span(left) && i == |done|
        invariant Keys() == rk
        invariant output[..] == Patch(out0, to, done)
        invariant input[..] == if input == output then Patch(out0, to, done) else in0
        invariant iv[..] == cur && cur == NextIv(iv0, done)
        invariant CbcEnc(box, rk, iv0, data) == done + CbcEnc(box, rk, cur, data[i..])
      {
        SpanStep(left);
        if input == output { Unread(out0, to, done, at + i); }
        BlockOf(in0, at, Span(length), i);
        ghost var c := EncNext(box, rk, iv0, cur, data, i, done, out0, to);
        EncryptBlock(iv, input, at + i, output, to + i);
        done, cur := done + c, c;
        i := i + B;
        left := left - B;
      }
      EncEnd(box, rk, cur, data[i..], done);
      EncBlocks(box, rk, iv0, data, out0, to);
    }

    /** CBC decryption. */
    method DecryptCbc(length: int, iv: array<octet>, input: array<octet>, at: nat, output: array<octet>, to: nat)
      requires Valid() && iv.Length == B && iv != output && iv != input
      requires at + Span(length) <= input.Length && to + Span(length) <= output.Length && (input != output || at == to)
      modifies output, iv
      ensures var c := old(input[at..at + Span(length)]);
        && output[..] == Patch(old(output[..]), to, CbcDec(box, Keys(), old(iv[..]), c))
        && iv[..] == NextIv(old(iv[..]), c)
      ensures Unchained(box, Keys(), old(iv[..]), old(input[at..at + Span(length)]), output[to..to + Span(length)])
    {
      hide Crypt, Patch, CbcDec, Span, Lows, Masked, NextIv, Unchained;
      ghost var in0, out0, iv0, data := input[..], output[..], iv[..], input[at..at + Span(length)];
      ghost var rk, cur := Keys(), iv0;
      ghost var done: seq<octet> := [];
      PatchNone(out0, to);
      Start(box, rk, iv0, data);
      var left, i := length, 0;
      while left > 0
        invariant Span(length) == i + Span(left) && i == |done|
        invariant Keys() == rk
        invariant output[..] == Patch(out0, to, done)
        invariant input[..] == if input == output then Patch(out0, to, done) else in0
        invariant iv[..] == cur && cur == NextIv(iv0, data[..i])
        invariant CbcDec(box, rk, iv0, data) == done + CbcDec(box, rk, cur, data[i..])
      {
        SpanStep(left);
        if input == output { Unread(out0, to, done, at + i); }
        BlockOf(in0, at, Span(length), i);
        ghost var p := DecNext(box, rk, iv0, cur, data, i, done, out0, to);
        DecryptBlock(iv, input, at + i, output, to + i);
        done, cur := done + p, data[i..i + B];
        i := i + B;
        left := left - B;
      }
      DecEnd(box, rk, cur, data[i..], done);
      DecBlocks(box, rk, iv0, data, out0, to);
      PatchAll(data, data);
    }
  }

  method SwapKeys(sk: array<ulong>)
    requires sk.Length == 32
    modifies sk
    ensures forall k :: 0 <= k < 32 ==> sk[..][k] == old(sk[..])[31 - k]
  {
    ghost var s := sk[..];
    for i := 0 to 16
      invariant forall k :: 0 <= k < i ==> sk[k] == s[31 - k]
      invariant forall k :: i <= k < 32 - i ==> sk[k] == s[k]
      invariant forall k :: 32 - i <= k < 32 ==> sk[k] == s[31 - k]
    {
      sk[i], sk[31 - i] := sk[31 - i], sk[i];
    }
  }

  method MaskBlock(iv: array<octet>, input: array<octet>, at: nat, output: array<octet>, to: nat)
    requires iv.Length == B && iv != output
    requires at + B <= input.Length && to + B <= output.Length && (input != output || at == to)
    modifies output
    ensures output[..] == Patch(old(output[..]), to, Masked(old(input[at..at + B]), iv[..]))
  {
    ghost var m := Masked(input[at..at + B], iv[..]);
    for i := 0 to B
      invariant forall k :: at + i <= k < at + B ==> input[k] == old(input[k])
      invariant forall k :: 0 <= k < i ==> output[to + k] == m[k]
      invariant forall k :: 0 <= k < output.Length && !(to <= k < to + i) ==> output[k] == old(output[k])
    {
      output[to + i] := input[at + i] ^ iv[i];
    }
    assert forall k :: to <= k < to + B ==> output[k] == m[k - to];
  }

  method CopyBlock(from: array<octet>, at: nat, to: array<octet>)
    requires from != to && at + B <= from.Length && to.Length == B
    modifies to
    ensures to[..] == from[at..at + B]
  {
    for i := 0 to B
      invariant forall k :: 0 <= k < i ==> to[k] == from[at + k]
    {
      to[i] := from[at + i];
    }
  }

  // ------------------------------------------------------------------------
  // One block forward

  lemma EncStep(box: Box, rk: seq<word>, iv: seq<octet>, data: seq<octet>, i: nat)
    requires |rk| == 32 && |iv| == B && Whole(data) && i % B == 0 && i + B <= |data|
    ensures var c := Crypt(box, rk, Masked(data[i..i + B], iv));
      CbcEnc(box, rk, iv, data[i..]) == c + CbcEnc(box, rk, c, data[i + B..])
  {
    hide Crypt;
    assert data[i..][..B] == data[i..i + B] && data[i..][B..] == data[i + B..];
  }

  lemma DecStep(box: Box, rk: seq<word>, iv: seq<octet>, data: seq<octet>, i: nat)
    requires |rk| == 32 && |iv| == B && Whole(data) && i % B == 0 && i + B <= |data|
    ensures CbcDec(box, rk, iv, data[i..]) ==
            Masked(Crypt(box, rk, data[i..i + B]), iv) + CbcDec(box, rk, data[i..i + B], data[i + B..])
  {
    hide Crypt;
    assert data[i..][..B] == data[i..i + B] && data[i..][B..] == data[i + B..];
  }

  /** One block further in the output, the vector and the rest. */
  lemma EncNext(box: Box, rk: seq<word>, iv: seq<octet>, cur: seq<octet>, data: seq<octet>, i: nat,
                done: seq<octet>, out: seq<octet>, to: nat)
    returns (c: seq<octet>)
    requires |rk| == 32 && |iv| == |cur| == B && Whole(data) && i % B == 0 && i + B <= |data|
    requires |done| == i && to + |data| <= |out|
    requires CbcEnc(box, rk, iv, data) == done + CbcEnc(box, rk, cur, data[i..])
    ensures c == Crypt(box, rk, Masked(data[i..i + B], cur)) && |c| == B
    ensures CbcEnc(box, rk, iv, data) == done + c + CbcEnc(box, rk, c, data[i + B..])
    ensures Whole(done + c) && NextIv(iv, done + c) == c
    ensures Patch(Patch(out, to, done), to + i, c) == Patch(out, to, done + c)
  {
    hide Crypt, Patch, CbcEnc, Masked, NextIv;
    c := Crypt(box, rk, Masked(data[i..i + B], cur));
    EncStep(box, rk, cur, data, i);
    PatchMore(out, to, done, c);
    NextIvLast(iv, done, c);
    Assoc(done, c, CbcEnc(box, rk, c, data[i + B..]));
  }

  lemma DecNext(box: Box, rk: seq<word>, iv: seq<octet>, cur: seq<octet>, data: seq<octet>, i: nat,
                done: seq<octet>, out: seq<octet>, to: nat)
    returns (p: seq<octet>)
    requires |rk| == 32 && |iv| == |cur| == B && Whole(data) && i % B == 0 && i + B <= |data|
    requires |done| == i && to + |data| <= |out|
    requires CbcDec(box, rk, iv, data) == done + CbcDec(box, rk, cur, data[i..])
    ensures p == Masked(Crypt(box, rk, data[i..i + B]), cur) && |p| == B
    ensures CbcDec(box, rk, iv, data) == done + p + CbcDec(box, rk, data[i..i + B], data[i + B..])
    ensures NextIv(iv, data[..i + B]) == data[i..i + B]
    ensures Patch(Patch(out, to, done), to + i, p) == Patch(out, to, done + p)
  {
    hide Crypt, Patch, CbcDec, Masked, NextIv;
    p := Masked(Crypt(box, rk, data[i..i + B]), cur);
    DecStep(box, rk, cur, data, i);
    PatchMore(out, to, done, p);
    NextIvLast(iv, data[..i], data[i..i + B]);
    Two(data, i, i + B);
    Assoc(done, p, CbcDec(box, rk, data[i..i + B], data[i + B..]));
  }

  lemma EncEnd(box: Box, rk: seq<word>, iv: seq<octet>, rest: seq<octet>, done: seq<octet>)
    requires |rk| == 32 && |iv| == B && rest == []
    ensures done + CbcEnc(box, rk, iv, rest) == done
  {
  }

  lemma DecEnd(box: Box, rk: seq<word>, iv: seq<octet>, rest: seq<octet>, done: seq<octet>)
    requires |rk| == 32 && |iv| == B && rest == []
    ensures done + CbcDec(box, rk, iv, rest) == done
  {
  }

  lemma EncBlocks(box: Box, rk: seq<word>, iv: seq<octet>, data: seq<octet>, out: seq<octet>, to: nat)
    requires |rk| == 32 && |iv| == B && Whole(data) && to + |data| <= |out|
    ensures Chained(box, rk, iv, data, Patch(out, to, CbcEnc(box, rk, iv, data))[to..to + |data|])
  {
    hide Chained, CbcEnc;
    CbcEncBlocks(box, rk, iv, data);
    Patched(out, to, CbcEnc(box, rk, iv, data));
  }

  lemma DecBlocks(box: Box, rk: seq<word>, iv: seq<octet>, c: seq<octet>, out: seq<octet>, to: nat)
    requires |rk| == 32 && |iv| == B && Whole(c) && to + |c| <= |out|
    ensures Unchained(box, rk, iv, c, Patch(out, to, CbcDec(box, rk, iv, c))[to..to + |c|])
  {
    hide Unchained, CbcDec;
    CbcDecBlocks(box, rk, iv, c);
    Patched(out, to, CbcDec(box, rk, iv, c));
  }

  lemma NextIvLast(iv: seq<octet>, c: seq<octet>, last: seq<octet>)
    requires |iv| == B && Whole(c) && |last| == B
    ensures Whole(c + last) && NextIv(iv, c + last) == last
  {
  }

  lemma EcbStep(box: Box, rk: seq<word>, data: seq<octet>, i: nat)
    requires |rk| == 32 && Whole(data) && i % B == 0 && i + B <= |data|
    ensures Ecb(box, rk, data[i..]) == Crypt(box, rk, data[i..i + B]) + Ecb(box, rk, data[i + B..])
  {
    hide Crypt;
    assert data[i..][..B] == data[i..i + B] && data[i..][B..] == data[i + B..];
  }

  lemma EcbNext(box: Box, rk: seq<word>, data: seq<octet>, i: nat, done: seq<octet>, out: seq<octet>, to: nat)
    returns (c: seq<octet>)
    requires |rk| == 32 && Whole(data) && i % B == 0 && i + B <= |data|
    requires |done| == i && to + |data| <= |out|
    requires Ecb(box, rk, data) == done + Ecb(box, rk, data[i..])
    ensures c == Crypt(box, rk, data[i..i + B]) && |c| == B
    ensures Ecb(box, rk, data) == done + c + Ecb(box, rk, data[i + B..])
    ensures Patch(Patch(out, to, done), to + i, c) == Patch(out, to, done + c)
  {
    hide Crypt, Patch, Ecb;
    c := Crypt(box, rk, data[i..i + B]);
    EcbStep(box, rk, data, i);
    PatchMore(out, to, done, c);
    Assoc(done, c, Ecb(box, rk, data[i + B..]));
  }

  lemma EcbEnd(box: Box, rk: seq<word>, rest: seq<octet>, done: seq<octet>)
    requires |rk| == 32 && rest == []
    ensures done + Ecb(box, rk, rest) == done
  {
  }

  lemma ReverseLows(s: seq<ulong>, t: seq<ulong>)
    requires |s| == |t| && forall k :: 0 <= k < |s| ==> t[k] == s[|s| - 1 - k]
    ensures Lows(t) == Reverse(Lows(s))
  {
    hide Low;
  }

  /** Bytes behind the patched part are those of before. */
  lemma Unread(s: seq<octet>, to: nat, done: seq<octet>, p: nat)
    requires to + |done| <= p && p + B <= |s|
    ensures Patch(s, to, done)[p..p + B] == s[p..p + B]
  {
  }

  lemma BlockOf(s: seq<octet>, at: nat, n: nat, i: nat)
    requires i + B <= n && at + n <= |s|
    ensures s[at..at + n][i..i + B] == s[at + i..at + i + B]
  {
    var d := s[at..at + n];
    var x, y := d[i..i + B], s[at + i..at + i + B];
    assert forall k :: 0 <= k < B ==> x[k] == y[k];
  }

  lemma Patched(s: seq<octet>, to: nat, b: seq<octet>)
    requires to + |b| <= |s|
    ensures Patch(s, to, b)[to..to + |b|] == b
  {
  }

  lemma PatchOver(s: seq<octet>, to: nat, a: seq<octet>, b: seq<octet>)
    requires to + |a| <= |s| && |a| == |b|
    ensures Patch(Patch(s, to, a), to, b) == Patch(s, to, b)
  {
  }

  lemma PatchNone(s: seq<octet>, to: nat)
    requires to <= |s|
    ensures Patch(s, to, []) == s
  {
  }

  // ------------------------------------------------------------------------
  // A message over several calls

  /** Every part is a number of whole blocks. */
  predicate Cuts(parts: seq<nat>) {
    parts == [] || (parts[|parts| - 1] % B == 0 && Cuts(parts[..|parts| - 1]))
  }

  function Total(parts: seq<nat>): nat {
    if parts == [] then 0 else Total(parts[..|parts| - 1]) + parts[|parts| - 1]
  }

  lemma {:induction false} NextCut(parts: seq<nat>, i: nat)
    requires i < |parts| && Cuts(parts)
    ensures Cuts(parts[..i + 1]) && parts[i] % B == 0 && Span(parts[i]) == parts[i]
    ensures Total(parts[..i + 1]) == Total(parts[..i]) + parts[i] <= Total(parts)
    decreases |parts| - i
  {
    assert parts[..i + 1][..i] == parts[..i];
    if i + 1 == |parts| {
      assert parts[..i + 1] == parts;
    } else {
      var most := parts[..|parts| - 1];
      NextCut(most, i);
      assert most[..i + 1] == parts[..i + 1] && most[..i] == parts[..i];
    }
  }

  lemma LastCut(parts: seq<nat>)
    ensures parts[..|parts|] == parts
  {
  }

  lemma Start(box: Box, rk: seq<word>, iv: seq<octet>, p: seq<octet>)
    requires |rk| == 32 && |iv| == B
    ensures CbcEnc(box, rk, iv, p[..0]) == [] && CbcDec(box, rk, iv, p[..0]) == []
    ensures NextIv(iv, p[..0]) == iv && NextIv(iv, []) == iv && Patch(p, 0, []) == p
    ensures Cuts([]) && Total([]) == 0
  {
  }

  lemma Ahead(p: seq<octet>, done: seq<octet>, n: nat)
    requires |done| <= n <= |p|
    ensures Patch(p, 0, done)[|done|..n] == p[|done|..n]
  {
  }

  lemma Two(p: seq<octet>, i: nat, n: nat)
    requires i <= n <= |p|
    ensures p[..i] + p[i..n] == p[..n]
  {
  }

  lemma NextIvTwo(iv: seq<octet>, a: seq<octet>, b: seq<octet>)
    requires |iv| == B && Whole(a) && Whole(b)
    ensures Whole(a + b) && NextIv(iv, a + b) == NextIv(NextIv(iv, a), b)
  {
    if b == [] {
      assert a + b == a;
    }
  }

  lemma PatchAll(p: seq<octet>, done: seq<octet>)
    requires |done| == |p|
    ensures Patch(p, 0, done) == done && p[..|p|] == p
  {
  }

  /** A buffer enciphered in place by one call a part. */
  method CbcEncParts(ctx: Context, iv: array<octet>, buffer: array<octet>, parts: seq<nat>)
    requires ctx.Valid() && iv.Length == B && iv != buffer
    requires Cuts(parts) && Total(parts) == buffer.Length
    modifies iv, buffer
    ensures Whole(old(buffer[..])) && buffer[..] == CbcEnc(ctx.box, ctx.Keys(), old(iv[..]), old(buffer[..]))
  {
    hide Lows, CbcEnc, Patch, Cuts, Total, NextIv;
    ghost var p, iv0, rk := buffer[..], iv[..], ctx.Keys();
    var pos := 0;
    ghost var done: seq<octet> := [];
    Start(ctx.box, rk, iv0, p);
    for i := 0 to |parts|
      invariant Cuts(parts[..i]) && pos == Total(parts[..i]) <= |p| && |done| == pos && pos % B == 0
      invariant ctx.Keys() == rk
      invariant done == CbcEnc(ctx.box, rk, iv0, p[..pos])
      invariant iv[..] == NextIv(iv0, done)
      invariant buffer[..] == Patch(p, 0, done)
    {
      NextCut(parts, i);
      var n := parts[i];
      Ahead(p, done, pos + n);
      ghost var last := CbcEnc(ctx.box, rk, iv[..], p[pos..pos + n]);
      CbcEncSplit(ctx.box, rk, iv0, p[..pos], p[pos..pos + n]);
      Two(p, pos, pos + n);
      NextIvTwo(iv0, done, last);
      PatchMore(p, 0, done, last);
      ctx.EncryptCbc(n, iv, buffer, pos, buffer, pos);
      done := done + last;
      pos := pos + n;
    }
    LastCut(parts);
    PatchAll(p, done);
  }

  /** A buffer deciphered in place by one call a part. */
  method CbcDecParts(ctx: Context, iv: array<octet>, buffer: array<octet>, parts: seq<nat>)
    requires ctx.Valid() && iv.Length == B && iv != buffer
    requires Cuts(parts) && Total(parts) == buffer.Length
    modifies iv, buffer
    ensures Whole(old(buffer[..])) && buffer[..] == CbcDec(ctx.box, ctx.Keys(), old(iv[..]), old(buffer[..]))
  {
    hide Lows, CbcDec, Patch, Cuts, Total, NextIv;
    ghost var p, iv0, rk := buffer[..], iv[..], ctx.Keys();
    var pos := 0;
    ghost var done: seq<octet> := [];
    Start(ctx.box, rk, iv0, p);
    for i := 0 to |parts|
      invariant Cuts(parts[..i]) && pos == Total(parts[..i]) <= |p| && |done| == pos && pos % B == 0
      invariant ctx.Keys() == rk
      invariant done == CbcDec(ctx.box, rk, iv0, p[..pos])
      invariant iv[..] == NextIv(iv0, p[..pos])
      invariant buffer[..] == Patch(p, 0, done)
    {
      NextCut(parts, i);
      var n := parts[i];
      Ahead(p, done, pos + n);
      ghost var last := CbcDec(ctx.box, rk, iv[..], p[pos..pos + n]);
      CbcDecSplit(ctx.box, rk, iv0, p[..pos], p[pos..pos + n]);
      Two(p, pos, pos + n);
      NextIvTwo(iv0, p[..pos], p[pos..pos + n]);
      PatchMore(p, 0, done, last);
      ctx.DecryptCbc(n, iv, buffer, pos, buffer, pos);
      done := done + last;
      pos := pos + n;
    }
    LastCut(parts);
    PatchAll(p, done);
  }

  /** A buffer enciphered in place in any calls, and deciphered in place in any other
      calls from the same vector, is as it was. */
  method CbcThereAndBack(box: Box, key: array<octet>, iv: array<octet>, buffer: array<octet>, there: seq<nat>, back: seq<nat>)
    requires key.Length >= 16 && key != buffer && iv.Length == B && iv != buffer && iv != key
    requires Cuts(there) && Cuts(back) && Total(there) == Total(back) == buffer.Length
    modifies iv, buffer
    ensures buffer[..] == old(buffer[..])
  {
    hide Lows, RoundKeys, Reverse, CbcEnc, CbcDec, Cuts, Total;
    ghost var p, iv0, rk := buffer[..], iv[..], RoundKeys(box, key[..16]);
    var other := new octet[B];
    CopyBlock(iv, 0, other);
    assert iv[0..B] == iv0;
    var ctx := new Context(box);
    ctx.SetKeyEnc(key);
    CbcEncParts(ctx, iv, buffer, there);
    ctx.SetKeyDec(key);
    CbcDecParts(ctx, other, buffer, back);
    CbcInverse(box, rk, iv0, p);
  }

  // ------------------------------------------------------------------------
  // Blocks and a masked tail

  const TAILMASK: seq<octet> := [
    0x01, 0x23, 0x45, 0x67, 0x89, 0xab, 0xcd, 0xef, 0xfe, 0xdc, 0xba, 0x98, 0x76, 0x54, 0x32, 0x10]

  /** Whole blocks through the cipher, the bytes behind them masked. */
  function Tailed(box: Box, rk: seq<word>, data: seq<octet>): (c: seq<octet>)
    requires |rk| == 32
    ensures |c| == |data|
  {
    if |data| < B then Masked(data, TAILMASK)
    else Crypt(box, rk, data[..B]) + Tailed(box, rk, data[B..])
  }

  /** The block-and-mask mode loses nothing, for every length. */
  lemma {:induction false} TailedInverse(box: Box, rk: seq<word>, data: seq<octet>)
    requires |rk| == 32
    ensures Tailed(box, Reverse(rk), Tailed(box, rk, data)) == data
  {
    hide Crypt;
    if |data| < B {
      MaskedBack(data, TAILMASK);
    } else {
      CryptInverse(box, rk, data[..B]);
      TailedInverse(box, rk, data[B..]);
      Front(Crypt(box, rk, data[..B]), Tailed(box, rk, data[B..]));
    }
  }

  /** Whole blocks go through the cipher one by one; every byte behind them is xored with
      the byte of the mask at its place. */
  ghost predicate TailMasked(box: Box, rk: seq<word>, data: seq<octet>, c: seq<octet>)
    requires |rk| == 32
  {
    var mask: seq<octet> := [0x01, 0x23, 0x45, 0x67, 0x89, 0xab, 0xcd, 0xef, 0xfe, 0xdc, 0xba, 0x98, 0x76, 0x54, 0x32, 0x10];
    && |c| == |data|
    && (forall i: nat :: 16 * i + 16 <= |data| ==> BlockAt(c, i) == Crypt(box, rk, BlockAt(data, i)))
    && (forall k :: |data| / 16 * 16 <= k < |data| ==> c[k] == data[k] ^ mask[k % 16])
  }

  lemma {:induction false} TailedBlocks(box: Box, rk: seq<word>, data: seq<octet>, i: nat)
    requires |rk| == 32 && 16 * i + 16 <= |data|
    ensures BlockAt(Tailed(box, rk, data), i) == Crypt(box, rk, BlockAt(data, i))
    decreases i
  {
    hide Crypt, BlockAt, Masked;
    var b, rest := Crypt(box, rk, data[..B]), Tailed(box, rk, data[B..]);
    FirstBlock(data, data, b, rest);
    if i > 0 {
      TailedBlocks(box, rk, data[B..], i - 1);
      BlockSuffix(data, i);
      BlockBehind(b, rest, b, i);
    }
  }

  lemma {:induction false} TailedEnd(box: Box, rk: seq<word>, data: seq<octet>, n: nat)
    requires |rk| == 32 && 16 * n <= |data|
    ensures Tailed(box, rk, data)[16 * n..] == Tailed(box, rk, data[16 * n..])
    decreases n
  {
    hide Crypt, Masked;
    if n > 0 {
      var b, rest := Crypt(box, rk, data[..B]), Tailed(box, rk, data[B..]);
      TailedEnd(box, rk, data[B..], n - 1);
      assert data[B..][16 * (n - 1)..] == data[16 * n..];
      assert (b + rest)[16 * n..] == rest[16 * (n - 1)..];
    }
  }

  lemma TailOnly(box: Box, rk: seq<word>, data: seq<octet>)
    requires |rk| == 32 && |data| < 16
    ensures forall j :: 0 <= j < |data| ==> Tailed(box, rk, data)[j] == data[j] ^ TAILMASK[j]
  {
  }

  lemma TailedTail(box: Box, rk: seq<word>, data: seq<octet>, n: nat, j: nat)
    requires |rk| == 32 && 16 * n + j < |data| < 16 * n + 16
    ensures Tailed(box, rk, data)[16 * n + j] == data[16 * n + j] ^ TAILMASK[j]
  {
    hide Tailed;
    TailedEnd(box, rk, data, n);
    TailOnly(box, rk, data[16 * n..]);
    assert data[16 * n..][j] == data[16 * n + j];
    assert Tailed(box, rk, data)[16 * n..][j] == Tailed(box, rk, data)[16 * n + j];
  }

  lemma TailedMasks(box: Box, rk: seq<word>, data: seq<octet>)
    requires |rk| == 32
    ensures TailMasked(box, rk, data, Tailed(box, rk, data))
  {
    hide Crypt, BlockAt, Tailed;
    forall i: nat | 16 * i + 16 <= |data|
      ensures BlockAt(Tailed(box, rk, data), i) == Crypt(box, rk, BlockAt(data, i))
    {
      TailedBlocks(box, rk, data, i);
    }
    forall k | |data| / 16 * 16 <= k < |data|
      ensures Tailed(box, rk, data)[k] == data[k] ^ TAILMASK[k % 16]
    {
      TailedTail(box, rk, data, k / 16, k % 16);
    }
  }

  /** The first 16 bytes of the password, filled up with zero bytes. */
  function KeyOf(passwd: seq<octet>): (key: seq<octet>)
    ensures |key| == 16
  {
    if |passwd| >= 16 then passwd[..16] else passwd + Zeros(16 - |passwd|)
  }

  /** The password buffer: 32 zero bytes with the password copied over them. */
  method KeyPass(passwd: seq<octet>) returns (key: array<octet>)
    ensures key.Length == 32 && key[..16] == KeyOf(passwd) && fresh(key)
  {
    key := new octet[32](_ => 0);
    var n := if |passwd| < 32 then |passwd| else 32;
    for i := 0 to n
      invariant forall k :: 0 <= k < i ==> key[k] == passwd[k]
      invariant forall k :: i <= k < 32 ==> key[k] == 0
    {
      key[i] := passwd[i];
    }
    ZerosAt(passwd);
  }

  lemma ZerosAt(passwd: seq<octet>)
    ensures forall k :: 0 <= k < 16 ==> KeyOf(passwd)[k] == if k < |passwd| then passwd[k] else 0
  {
    forall k | |passwd| <= k < 16
      ensures KeyOf(passwd)[k] == 0
    {
      ZeroAt(16 - |passwd|, k - |passwd|);
    }
  }

  lemma ZeroAt(n: nat, k: nat)
    requires k < n
    ensures Zeros(n)[k] == 0
  {
  }

  lemma TailedStep(box: Box, rk: seq<word>, data: seq<octet>, i: nat)
    requires |rk| == 32 && i + B <= |data|
    ensures Tailed(box, rk, data[i..]) == Ecb(box, rk, data[i..i + B]) + Tailed(box, rk, data[i + B..])
  {
    hide Crypt;
    var b := data[i..i + B];
    assert data[i..][..B] == b && data[i..][B..] == data[i + B..];
    assert b[..B] == b && b[B..] == [];
    assert Ecb(box, rk, []) == [];
    assert Ecb(box, rk, b) == Crypt(box, rk, b) + [];
  }

  lemma TailedLast(box: Box, rk: seq<word>, data: seq<octet>, i: nat, last: seq<octet>)
    requires |rk| == 32 && i <= |data| < i + B && |last| == |data| - i
    requires forall k :: 0 <= k < |last| ==> last[k] == Mask(data[i + k], TAILMASK[k])
    ensures last == Tailed(box, rk, data[i..])
  {
  }

  /** The loops shared by `sm4_context_crypt` and `sm4_context_decrypt`. */
  method CryptTailed(ctx: Context, input: array<octet>, size: nat) returns (output: array<octet>)
    requires ctx.Valid() && size <= input.Length
    ensures fresh(output) && output[..] == Tailed(ctx.box, ctx.Keys(), input[..size])
  {
    hide Lows, Tailed, Ecb, Patch;
    ghost var data, rk := input[..size], ctx.Keys();
    output := new octet[size];
    ghost var out0, done: seq<octet> := output[..], [];
    PatchNone(out0, 0);
    assert data[0..] == data;
    var i := 0;
    while i <= size - B
      invariant i <= size && i % B == 0 && i == |done|
      invariant output[..] == Patch(out0, 0, done)
      invariant ctx.Keys() == rk && input[..size] == data
      invariant Tailed(ctx.box, rk, data) == done + Tailed(ctx.box, rk, data[i..])
    {
      assert Span(B) == B;
      ctx.CryptEcb(B, input, i, output, i);
      ghost var c := Ecb(ctx.box, rk, data[i..i + B]);
      BlockOf(input[..], 0, size, i);
      assert input[..][0..size] == data;
      TailedStep(ctx.box, rk, data, i);
      PatchMore(out0, 0, done, c);
      Assoc(done, c, Tailed(ctx.box, rk, data[i + B..]));
      done := done + c;
      i := i + B;
    }
    MaskTail(ctx, input, size, i, output);
    Keep(output[..], out0, done);
  }

  lemma Keep(out: seq<octet>, out0: seq<octet>, done: seq<octet>)
    requires |out| == |out0| && |done| <= |out|
    requires out[..|done|] == Patch(out0, 0, done)[..|done|]
    ensures out == done + out[|done|..]
  {
  }

  lemma InBlock(from: nat, i: nat)
    requires from % B == 0 && from <= i < from + B
    ensures i % 16 == i - from
  {
  }

  /** The bytes behind the last whole block. */
  method MaskTail(ctx: Context, input: array<octet>, size: nat, from: nat, output: array<octet>)
    requires ctx.Valid() && size <= input.Length && output.Length == size && from % B == 0 && from <= size < from + B
    requires input != output
    modifies output
    ensures output[..from] == old(output[..from])
    ensures output[from..] == Tailed(ctx.box, ctx.Keys(), input[..size][from..])
  {
    hide Mask, Lows, Tailed;
    ghost var data, mask := input[..size], TAILMASK;
    var i := from;
    while i < size
      invariant from <= i <= size
      invariant output[..from] == old(output[..from])
      invariant forall k :: from <= k < i ==> output[k] == Mask(input[k], mask[k - from])
    {
      InBlock(from, i);
      output[i] := Mask(input[i], TAILMASK[i % 16]);
      i := i + 1;
    }
    TailedLast(ctx.box, ctx.Keys(), data, from, output[from..]);
  }

  method ContextCrypt(box: Box, input: array<octet>, size: int, passwd: seq<octet>) returns (r: int, output: array?<octet>)
    requires size <= input.Length
    ensures size <= 0 ==> r == EINVAL
    ensures size > 0 ==> r == size && output != null && output[..] == Tailed(box, RoundKeys(box, KeyOf(passwd)), input[..size])
    ensures size > 0 ==> TailMasked(box, RoundKeys(box, KeyOf(passwd)), input[..size], output[..])
  {
    hide Lows, RoundKeys, Tailed, TailMasked;
    if size <= 0 { return EINVAL, null; }
    var ctx := new Context(box);
    var key := KeyPass(passwd);
    ctx.SetKeyEnc(key);
    output := CryptTailed(ctx, input, size);
    TailedMasks(box, RoundKeys(box, KeyOf(passwd)), input[..size]);
    r := size;
  }

  method ContextDecrypt(box: Box, input: array<octet>, size: int, passwd: seq<octet>) returns (r: int, output: array?<octet>)
    requires size <= input.Length
    ensures size <= 0 ==> r == EINVAL
    ensures size > 0 ==> r == size && output != null && output[..] == Tailed(box, Reverse(RoundKeys(box, KeyOf(passwd))), input[..size])
    ensures size > 0 ==> TailMasked(box, Reverse(RoundKeys(box, KeyOf(passwd))), input[..size], output[..])
  {
    hide Lows, RoundKeys, Tailed, TailMasked;
    if size <= 0 { return EINVAL, null; }
    var ctx := new Context(box);
    var key := KeyPass(passwd);
    ctx.SetKeyDec(key);
    output := CryptTailed(ctx, input, size);
    TailedMasks(box, Reverse(RoundKeys(box, KeyOf(passwd))), input[..size]);
    r := size;
  }

  /** Decrypting with the same password gives back every non-empty text, with its length. */
  method CryptThenDecrypt(box: Box, input: array<octet>, passwd: seq<octet>) returns (r: int, output: array?<octet>)
    requires input.Length > 0
    ensures r == input.Length && output != null && output[..] == input[..]
  {
    hide RoundKeys, Tailed, Reverse;
    var n, c := ContextCrypt(box, input, input.Length, passwd);
    assert input[..input.Length] == input[..];
    r, output := ContextDecrypt(box, c, c.Length, passwd);
    assert c[..c.Length] == c[..];
    TailedInverse(box, RoundKeys(box, KeyOf(passwd)), input[..]);
  }
}
