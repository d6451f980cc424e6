/** The SM4 block cipher (sm4.c) for any S-box, against GB/T 32907-2016.

    The program computes in `unsigned long`, which has 64 bits on the machine it
    runs on, so rotations leave stray bits above the low word. */
module Sm4 {
  import opened Base
  import opened Words

  type ulong = bv64

  type Box = octet -> octet

  // ------------------------------------------------------------------------
  // The standard, in 32 bit words

  /** The non-linear transformation: the S-box on every byte. */
  function Tau(box: Box, x: word): word {
    BigEndian(box(ByteOf(x, 0)), box(ByteOf(x, 1)), box(ByteOf(x, 2)), box(ByteOf(x, 3)))
  }

  function L(b: word): word { Xor(Xor4(b, Rotl(b, 2), Rotl(b, 10), Rotl(b, 18)), Rotl(b, 24)) }

  function L'(b: word): word { Xor(Xor(b, Rotl(b, 13)), Rotl(b, 23)) }

  /** The mixer substitutions of the rounds and of the key schedule. */
  function T(box: Box, x: word): word { L(Tau(box, x)) }

  function T'(box: Box, x: word): word { L'(Tau(box, x)) }

  function Xor(x: word, y: word): word { x ^ y }

  function Xor4(a: word, b: word, c: word, d: word): word { a ^ b ^ c ^ d }

  /** The round function. */
  function F(box: Box, x0: word, x1: word, x2: word, x3: word, rk: word): word {
    Xor(x0, T(box, Xor4(x1, x2, x3, rk)))
  }

  /** Word `k` of a block. */
  function WordAt(b: seq<octet>, k: nat): word
    requires 4 * k + 4 <= |b|
  {
    BigEndian(b[4 * k], b[4 * k + 1], b[4 * k + 2], b[4 * k + 3])
  }

  /** Word `i` of the 36 words that the rounds with the keys `rk` produce. */
  function X(box: Box, rk: seq<word>, b: seq<octet>, i: nat): word
    requires |rk| == 32 && |b| == 16 && i < 36
  {
    if i < 4 then WordAt(b, i)
    else F(box, X(box, rk, b, i - 4), X(box, rk, b, i - 3), X(box, rk, b, i - 2), X(box, rk, b, i - 1), rk[i - 4])
  }

  /** The block cipher with the given round keys: the last four words in reverse order. */
  function Crypt(box: Box, rk: seq<word>, b: seq<octet>): (c: seq<octet>)
    requires |rk| == 32 && |b| == 16
    ensures |c| == 16
  {
    WordBytes(X(box, rk, b, 35)) + WordBytes(X(box, rk, b, 34)) + WordBytes(X(box, rk, b, 33)) + WordBytes(X(box, rk, b, 32))
  }

  const FK: seq<word> := [0xa3b1bac6, 0x56aa3350, 0x677d9197, 0xb27022dc]

  const CKTable: seq<word> := [
    0x00070e15, 0x1c232a31, 0x383f464d, 0x545b6269,
    0x70777e85, 0x8c939aa1, 0xa8afb6bd, 0xc4cbd2d9,
    0xe0e7eef5, 0xfc030a11, 0x181f262d, 0x343b4249,
    0x50575e65, 0x6c737a81, 0x888f969d, 0xa4abb2b9,
    0xc0c7ced5, 0xdce3eaf1, 0xf8ff060d, 0x141b2229,
    0x30373e45, 0x4c535a61, 0x686f767d, 0x848b9299,
    0xa0a7aeb5, 0xbcc3cad1, 0xd8dfe6ed, 0xf4fb0209,
    0x10171e25, 0x2c333a41, 0x484f565d, 0x646b7279]

  function CK(i: nat): word
    requires i < 32
  {
    CKTable[i]
  }

  lemma CKRow(i: octet)
    requires i < 32
    ensures ByteOf(CK(i as nat), 0) == 28 * i && ByteOf(CK(i as nat), 1) == 28 * i + 7
    ensures ByteOf(CK(i as nat), 2) == 28 * i + 14 && ByteOf(CK(i as nat), 3) == 28 * i + 21
  {
  }

  lemma Sevens(i: octet, j: octet)
    requires i < 32 && j < 4
    ensures (28 * i + 7 * j) as int == (4 * i as int + j as int) * 7 % 256
  {
  }

  /** Byte `j` of constant `i` is seven times its place, modulo 256 (section 7.3.2 of
      GB/T 32907-2016). */
  lemma CKBytes(i: octet, j: octet)
    requires i < 32 && j < 4
    ensures ByteOf(CK(i as nat), j as nat) as int == (4 * i as int + j as int) * 7 % 256
  {
    hide CK, ByteOf;
    CKRow(i);
    Sevens(i, j);
  }

  /** Word `i` of the key schedule. */
  function K(box: Box, key: seq<octet>, i: nat): word
    requires |key| == 16 && i < 36
  {
    if i < 4 then Xor(WordAt(key, i), FK[i])
    else Xor(K(box, key, i - 4), T'(box, Xor4(K(box, key, i - 3), K(box, key, i - 2), K(box, key, i - 1), CK(i - 4))))
  }

  function RoundKeys(box: Box, key: seq<octet>): (rk: seq<word>)
    requires |key| == 16
    ensures |rk| == 32
  {
    seq(32, i requires 0 <= i < 32 => K(box, key, i + 4))
  }

  /** The key is masked with the system parameter. */
  lemma KeyStart(box: Box, key: seq<octet>)
    requires |key| == 16
    ensures K(box, key, 0) == WordAt(key, 0) ^ 0xa3b1bac6 && K(box, key, 1) == WordAt(key, 1) ^ 0x56aa3350
    ensures K(box, key, 2) == WordAt(key, 2) ^ 0x677d9197 && K(box, key, 3) == WordAt(key, 3) ^ 0xb27022dc
  {
    hide WordAt;
  }

  function Reverse(s: seq<word>): (r: seq<word>)
    ensures |r| == |s| && forall k :: 0 <= k < |s| ==> r[k] == s[|s| - 1 - k]
  {
    seq(|s|, k requires 0 <= k < |s| => s[|s| - 1 - k])
  }

  // ------------------------------------------------------------------------
  // Decryption inverts encryption

  lemma XorBack(a: word, t: word)
    ensures (a ^ t) ^ t == a
  {
  }

  lemma XorInvolution(a: word, t: word)
    ensures Xor(Xor(a, t), t) == a
  {
    XorBack(a, t);
  }

  lemma XorReorder(a: word, b: word, c: word, d: word)
    ensures ((a ^ b) ^ c) ^ d == ((c ^ b) ^ a) ^ d
  {
  }

  lemma Xor4Turn(a: word, b: word, c: word, d: word)
    ensures Xor4(a, b, c, d) == Xor4(c, b, a, d)
  {
    XorReorder(a, b, c, d);
  }

  lemma JoinSplit(x: word)
    ensures ((((x >> 24) & 0xff) as octet) as word << 24) | ((((x >> 16) & 0xff) as octet) as word << 16) |
            ((((x >> 8) & 0xff) as octet) as word << 8) | ((x & 0xff) as octet) as word == x
  {
  }

  lemma SplitJoin(b0: octet, b1: octet, b2: octet, b3: octet)
    ensures
      var w := (b0 as word << 24) | (b1 as word << 16) | (b2 as word << 8) | b3 as word;
      && ((w >> 24) & 0xff) as octet == b0 && ((w >> 16) & 0xff) as octet == b1
      && ((w >> 8) & 0xff) as octet == b2 && (w & 0xff) as octet == b3
  {
  }

  lemma WordOfBytes(x: word)
    ensures BigEndian(ByteOf(x, 0), ByteOf(x, 1), ByteOf(x, 2), ByteOf(x, 3)) == x
  {
    JoinSplit(x);
  }

  lemma JoinBytes(x: word, b0: octet, b1: octet, b2: octet, b3: octet)
    requires WordBytes(x) == [b0, b1, b2, b3]
    ensures BigEndian(b0, b1, b2, b3) == x
  {
    hide ByteOf, BigEndian;
    WordOfBytes(x);
    assert WordBytes(x)[0] == b0 && WordBytes(x)[1] == b1 && WordBytes(x)[2] == b2 && WordBytes(x)[3] == b3;
  }

  lemma BytesOfWord(b0: octet, b1: octet, b2: octet, b3: octet)
    ensures WordBytes(BigEndian(b0, b1, b2, b3)) == [b0, b1, b2, b3]
  {
    SplitJoin(b0, b1, b2, b3);
  }

  /** A round applied to the words in reverse order gives back the first word. */
  lemma RoundBack(box: Box, x0: word, x1: word, x2: word, x3: word, rk: word)
    ensures F(box, F(box, x0, x1, x2, x3, rk), x3, x2, x1, rk) == x0
  {
    hide Xor, Xor4, T;
    Xor4Turn(x1, x2, x3, rk);
    XorInvolution(x0, T(box, Xor4(x1, x2, x3, rk)));
  }

  /** The words of the decryption are those of the encryption in reverse order. */
  lemma {:induction false} ReverseWords(box: Box, rk: seq<word>, b: seq<octet>, i: nat)
    requires |rk| == 32 && |b| == 16 && i < 36
    ensures X(box, Reverse(rk), Crypt(box, rk, b), i) == X(box, rk, b, 35 - i)
  {
    hide F, WordBytes, Crypt, WordAt;
    if i < 4 {
      CryptWord(box, rk, b, i);
    } else {
      ReverseWords(box, rk, b, i - 4);
      ReverseWords(box, rk, b, i - 3);
      ReverseWords(box, rk, b, i - 2);
      ReverseWords(box, rk, b, i - 1);
      var k := 35 - i;
      RoundBack(box, X(box, rk, b, k), X(box, rk, b, k + 1), X(box, rk, b, k + 2), X(box, rk, b, k + 3), rk[k]);
    }
  }

  lemma Quarters(a: seq<octet>, b: seq<octet>, c: seq<octet>, d: seq<octet>, i: nat)
    requires |a| == |b| == |c| == |d| == 4 && i < 4
    ensures var all, q := a + b + c + d, if i == 0 then a else if i == 1 then b else if i == 2 then c else d;
      q == [all[4 * i], all[4 * i + 1], all[4 * i + 2], all[4 * i + 3]]
  {
  }

  lemma CryptWord(box: Box, rk: seq<word>, b: seq<octet>, i: nat)
    requires |rk| == 32 && |b| == 16 && i < 4
    ensures WordAt(Crypt(box, rk, b), i) == X(box, rk, b, 35 - i)
  {
    hide X, BigEndian, ByteOf, WordBytes;
    var x := X(box, rk, b, 35 - i);
    var c := Crypt(box, rk, b);
    Quarters(WordBytes(X(box, rk, b, 35)), WordBytes(X(box, rk, b, 34)), WordBytes(X(box, rk, b, 33)), WordBytes(X(box, rk, b, 32)), i);
    JoinBytes(x, c[4 * i], c[4 * i + 1], c[4 * i + 2], c[4 * i + 3]);
  }

  /** Deciphering with the round keys in reverse order undoes enciphering, for every
      S-box, all round keys and every block. */
  lemma CryptInverse(box: Box, rk: seq<word>, b: seq<octet>)
    requires |rk| == 32 && |b| == 16
    ensures Crypt(box, Reverse(rk), Crypt(box, rk, b)) == b
  {
    hide X, BigEndian, WordBytes;
    var c := Crypt(box, rk, b);
    ReverseWords(box, rk, b, 35);
    ReverseWords(box, rk, b, 34);
    ReverseWords(box, rk, b, 33);
    ReverseWords(box, rk, b, 32);
    PlainWord(box, rk, b, 0);
    PlainWord(box, rk, b, 1);
    PlainWord(box, rk, b, 2);
    PlainWord(box, rk, b, 3);
  }

  lemma PlainWord(box: Box, rk: seq<word>, b: seq<octet>, k: nat)
    requires |rk| == 32 && |b| == 16 && k < 4
    ensures WordBytes(X(box, rk, b, k)) == b[4 * k..4 * k + 4]
  {
    hide BigEndian, WordBytes;
    BytesOfWord(b[4 * k], b[4 * k + 1], b[4 * k + 2], b[4 * k + 3]);
  }

  // ------------------------------------------------------------------------
  // The computation in 64 bit words

  /** The low word, which is all that the standard knows. */
  function Low(x: ulong): word { (x & 0xffff_ffff) as word }

  function Wide(x: word): ulong { x as ulong }

  /** The macros SHL and ROTL: bits shifted beyond the low word stay. */
  function Rotl64(x: ulong, n: bv5): ulong { ((x & 0xffff_ffff) << n) | (x >> (32 - n as bv6)) }

  function Xor64(x: ulong, y: ulong): ulong { x ^ y }

  function Xor464(a: ulong, b: ulong, c: ulong, d: ulong): ulong { a ^ b ^ c ^ d }

  /** Byte `k` that PUT_ULONG_BE takes from a 64 bit word: the shifted word, of which the
      cast to `unsigned char` keeps the low eight bits. */
  function PutByte(n: ulong, k: nat): octet
    requires k < 4
  {
    if k == 0 then ((n >> 24) & 0xff) as octet
    else if k == 1 then ((n >> 16) & 0xff) as octet
    else if k == 2 then ((n >> 8) & 0xff) as octet
    else (n & 0xff) as octet
  }

  /** GET_ULONG_BE: the bytes are widened to 64 bits before they are shifted. */
  function GetUlong(b0: octet, b1: octet, b2: octet, b3: octet): ulong {
    (b0 as ulong << 24) | (b1 as ulong << 16) | (b2 as ulong << 8) | b3 as ulong
  }

  /** The S-box on the four bytes that PUT_ULONG_BE takes, joined by GET_ULONG_BE. */
  function Tau64(box: Box, ka: ulong): ulong {
    GetUlong(box(PutByte(ka, 0)), box(PutByte(ka, 1)), box(PutByte(ka, 2)), box(PutByte(ka, 3)))
  }

  function Lt64(box: Box, ka: ulong): ulong {
    var bb := Tau64(box, ka);
    Xor64(Xor464(bb, Rotl64(bb, 2), Rotl64(bb, 10), Rotl64(bb, 18)), Rotl64(bb, 24))
  }

  function CalciRK64(box: Box, ka: ulong): ulong {
    var bb := Tau64(box, ka);
    Xor64(Xor64(bb, Rotl64(bb, 13)), Rotl64(bb, 23))
  }

  function F64(box: Box, x0: ulong, x1: ulong, x2: ulong, x3: ulong, rk: ulong): ulong {
    Xor64(x0, Lt64(box, Xor464(x1, x2, x3, rk)))
  }

  lemma PutByte0(n: ulong)
    ensures PutByte(n, 0) == ByteOf(Low(n), 0)
  {
  }

  lemma PutByte1(n: ulong)
    ensures PutByte(n, 1) == ByteOf(Low(n), 1)
  {
  }

  lemma PutByte2(n: ulong)
    ensures PutByte(n, 2) == ByteOf(Low(n), 2)
  {
  }

  lemma PutByte3(n: ulong)
    ensures PutByte(n, 3) == ByteOf(Low(n), 3)
  {
  }

  /** Stray bits above the low word never reach the bytes of a word. */
  lemma PutBytesLow(n: ulong)
    ensures PutByte(n, 0) == ByteOf(Low(n), 0) && PutByte(n, 1) == ByteOf(Low(n), 1)
    ensures PutByte(n, 2) == ByteOf(Low(n), 2) && PutByte(n, 3) == ByteOf(Low(n), 3)
  {
    hide PutByte, ByteOf, Low;
    PutByte0(n);
    PutByte1(n);
    PutByte2(n);
    PutByte3(n);
  }

  /** A word that is loaded carries no stray bits. */
  lemma GetUlongClean(b0: octet, b1: octet, b2: octet, b3: octet)
    ensures GetUlong(b0, b1, b2, b3) == Wide(BigEndian(b0, b1, b2, b3))
  {
  }

  /** The S-box sees the low word alone, and gives a clean word. */
  lemma TauClean(box: Box, ka: ulong)
    ensures Tau64(box, ka) == Wide(Tau(box, Low(ka)))
  {
    hide PutByte, ByteOf, Low, GetUlong, Wide, BigEndian;
    PutBytesLow(ka);
    GetUlongClean(box(PutByte(ka, 0)), box(PutByte(ka, 1)), box(PutByte(ka, 2)), box(PutByte(ka, 3)));
  }

  lemma LowXor(x: ulong, y: ulong)
    ensures Low(Xor64(x, y)) == Xor(Low(x), Low(y))
  {
  }

  lemma LowXor4(a: ulong, b: ulong, c: ulong, d: ulong)
    ensures Low(Xor464(a, b, c, d)) == Xor4(Low(a), Low(b), Low(c), Low(d))
  {
  }

  lemma LowWide(b: word)
    ensures Low(Wide(b)) == b
  {
  }

  lemma LowRotl2(b: word)
    ensures Low(Rotl64(Wide(b), 2)) == Rotl(b, 2)
  {
  }

  lemma LowRotl10(b: word)
    ensures Low(Rotl64(Wide(b), 10)) == Rotl(b, 10)
  {
  }

  lemma LowRotl13(b: word)
    ensures Low(Rotl64(Wide(b), 13)) == Rotl(b, 13)
  {
  }

  lemma LowRotl18(b: word)
    ensures Low(Rotl64(Wide(b), 18)) == Rotl(b, 18)
  {
  }

  lemma LowRotl23(b: word)
    ensures Low(Rotl64(Wide(b), 23)) == Rotl(b, 23)
  {
  }

  lemma LowRotl24(b: word)
    ensures Low(Rotl64(Wide(b), 24)) == Rotl(b, 24)
  {
  }

  /** On a clean word the low half of the wide rotation is the rotation. */
  lemma LowRotl(b: word)
    ensures Low(Rotl64(Wide(b), 2)) == Rotl(b, 2)
    ensures Low(Rotl64(Wide(b), 10)) == Rotl(b, 10)
    ensures Low(Rotl64(Wide(b), 13)) == Rotl(b, 13)
    ensures Low(Rotl64(Wide(b), 18)) == Rotl(b, 18)
    ensures Low(Rotl64(Wide(b), 23)) == Rotl(b, 23)
    ensures Low(Rotl64(Wide(b), 24)) == Rotl(b, 24)
  {
    hide Rotl, Rotl64, Low, Wide;
    LowRotl2(b);
    LowRotl10(b);
    LowRotl13(b);
    LowRotl18(b);
    LowRotl23(b);
    LowRotl24(b);
  }

  lemma LowLt(box: Box, ka: ulong)
    ensures Low(Lt64(box, ka)) == T(box, Low(ka))
  {
    hide Xor, Xor4, Xor64, Xor464, Rotl, Rotl64, Low, Wide, Tau, Tau64;
    TauClean(box, ka);
    var b := Tau(box, Low(ka));
    var bb := Wide(b);
    LowWide(b);
    LowRotl(b);
    LowXor4(bb, Rotl64(bb, 2), Rotl64(bb, 10), Rotl64(bb, 18));
    LowXor(Xor464(bb, Rotl64(bb, 2), Rotl64(bb, 10), Rotl64(bb, 18)), Rotl64(bb, 24));
  }

  lemma LowCalciRK(box: Box, ka: ulong)
    ensures Low(CalciRK64(box, ka)) == T'(box, Low(ka))
  {
    hide Xor, Xor4, Xor64, Xor464, Rotl, Rotl64, Low, Wide, Tau, Tau64;
    TauClean(box, ka);
    var b := Tau(box, Low(ka));
    var bb := Wide(b);
    LowWide(b);
    LowRotl(b);
    LowXor(bb, Rotl64(bb, 13));
    LowXor(Xor64(bb, Rotl64(bb, 13)), Rotl64(bb, 23));
  }

  /** One round in 64 bit words agrees with the standard in the low words, whatever
      stray bits the words carry. */
  lemma LowF(box: Box, x0: ulong, x1: ulong, x2: ulong, x3: ulong, rk: ulong)
    ensures Low(F64(box, x0, x1, x2, x3, rk)) == F(box, Low(x0), Low(x1), Low(x2), Low(x3), Low(rk))
  {
    hide Xor, Xor4, Xor64, Xor464, Low, Lt64, T;
    var ka := Xor464(x1, x2, x3, rk);
    LowXor4(x1, x2, x3, rk);
    LowLt(box, ka);
    LowXor(x0, Lt64(box, ka));
  }

  // ------------------------------------------------------------------------
  // Keys and blocks in arrays

  function Lows(s: seq<ulong>): (r: seq<word>)
    ensures |r| == |s| && forall k :: 0 <= k < |s| ==> r[k] == Low(s[k])
  {
    seq(|s|, k requires 0 <= k < |s| => Low(s[k]))
  }

  lemma PatchMore(s: seq<octet>, to: nat, a: seq<octet>, b: seq<octet>)
    requires to + |a| + |b| <= |s|
    ensures Patch(Patch(s, to, a), to + |a|, b) == Patch(s, to, a + b)
  {
  }

  /** GET_ULONG_BE from an array. */
  method GetWord(b: array<octet>, at: nat) returns (n: ulong)
    requires at + 4 <= b.Length
    ensures Low(n) == BigEndian(b[at], b[at + 1], b[at + 2], b[at + 3])
  {
    hide BigEndian, Low, Wide, GetUlong;
    n := GetUlong(b[at], b[at + 1], b[at + 2], b[at + 3]);
    GetUlongClean(b[at], b[at + 1], b[at + 2], b[at + 3]);
    LowWide(BigEndian(b[at], b[at + 1], b[at + 2], b[at + 3]));
  }

  /** PUT_ULONG_BE into an array: the bytes are those of the low word. */
  method PutWord(n: ulong, b: array<octet>, at: nat)
    requires at + 4 <= b.Length
    modifies b
    ensures b[..] == Patch(old(b[..]), at, WordBytes(Low(n)))
  {
    hide ByteOf, Low, PutByte;
    PutBytesLow(n);
    b[at] := PutByte(n, 0);
    b[at + 1] := PutByte(n, 1);
    b[at + 2] := PutByte(n, 2);
    b[at + 3] := PutByte(n, 3);
  }

  /** Word `i` of the key schedule in 64 bit words. */
  lemma LowK(box: Box, key: seq<octet>, i: nat, k0: ulong, k1: ulong, k2: ulong, k3: ulong)
    requires |key| == 16 && i < 32
    requires Low(k0) == K(box, key, i) && Low(k1) == K(box, key, i + 1)
    requires Low(k2) == K(box, key, i + 2) && Low(k3) == K(box, key, i + 3)
    ensures Low(Xor64(k0, CalciRK64(box, Xor464(k1, k2, k3, Wide(CK(i)))))) == K(box, key, i + 4)
  {
    hide Xor, Xor4, Xor64, Xor464, Low, CK, CalciRK64, T', BigEndian, Wide;
    var ka := Xor464(k1, k2, k3, Wide(CK(i)));
    LowXor4(k1, k2, k3, Wide(CK(i)));
    LowWide(CK(i));
    LowCalciRK(box, ka);
    LowXor(k0, CalciRK64(box, ka));
  }

  lemma LowX(box: Box, rk: seq<word>, b: seq<octet>, i: nat, x0: ulong, x1: ulong, x2: ulong, x3: ulong, sk: ulong)
    requires |rk| == 32 && |b| == 16 && i < 32 && Low(sk) == rk[i]
    requires Low(x0) == X(box, rk, b, i) && Low(x1) == X(box, rk, b, i + 1)
    requires Low(x2) == X(box, rk, b, i + 2) && Low(x3) == X(box, rk, b, i + 3)
    ensures Low(F64(box, x0, x1, x2, x3, sk)) == X(box, rk, b, i + 4)
  {
    hide F, F64, Low;
    LowF(box, x0, x1, x2, x3, sk);
  }

  /** GET_ULONG_BE on the four words of a block. */
  method GetBlock(b: array<octet>, at: nat, w: array<ulong>)
    requires at + 16 <= b.Length && w.Length == 36
    modifies w
    ensures forall j :: 0 <= j < 4 ==> Low(w[j]) == WordAt(b[at..at + 16], j)
  {
    hide BigEndian, Low;
    var i := 0;
    while i < 4
      invariant 0 <= i <= 4
      invariant forall j :: 0 <= j < i ==> Low(w[j]) == WordAt(b[at..at + 16], j)
    {
      w[i] := GetWord(b, at + 4 * i);
      i := i + 1;
    }
  }

  method FirstKeys(box: Box, key: array<octet>, k: array<ulong>)
    requires key.Length >= 16 && k.Length == 36
    modifies k
    ensures forall j :: 0 <= j < 4 ==> Low(k[j]) == K(box, key[..16], j)
  {
    hide Xor64, Low, WordAt, Wide, K;
    ghost var key0 := key[..16];
    GetBlock(key, 0, k);
    assert key[0..16] == key0;
    var i := 0;
    while i < 4
      invariant 0 <= i <= 4
      invariant forall j :: 0 <= j < i ==> Low(k[j]) == K(box, key0, j)
      invariant forall j :: i <= j < 4 ==> Low(k[j]) == WordAt(key0, j)
    {
      FirstK(box, key0, i, k[i]);
      k[i] := Xor64(k[i], Wide(FK[i]));
      i := i + 1;
    }
  }

  /** The key schedule of `sm4_setkey`. */
  method SetKey(box: Box, sk: array<ulong>, key: array<octet>)
    requires sk.Length == 32 && key.Length >= 16
    modifies sk
    ensures Lows(sk[..]) == RoundKeys(box, key[..16])
  {
    hide Xor, Xor4, Xor64, Xor464, Low, CK, CalciRK64, T', WordAt, Wide, K;
    ghost var key0 := key[..16];
    var k := new ulong[36];
    FirstKeys(box, key, k);
    var i := 0;
    while i < 32
      invariant 0 <= i <= 32
      invariant forall j :: 0 <= j < i + 4 ==> Low(k[j]) == K(box, key0, j)
      invariant forall j :: 0 <= j < i ==> Low(sk[j]) == K(box, key0, j + 4)
    {
      LowK(box, key0, i, k[i], k[i + 1], k[i + 2], k[i + 3]);
      k[i + 4] := Xor64(k[i], CalciRK64(box, Xor464(k[i + 1], k[i + 2], k[i + 3], Wide(CK(i)))));
      sk[i] := k[i + 4];
      i := i + 1;
    }
  }

  lemma FirstK(box: Box, key: seq<octet>, i: nat, mk: ulong)
    requires |key| == 16 && i < 4 && Low(mk) == WordAt(key, i)
    ensures Low(Xor64(mk, Wide(FK[i]))) == K(box, key, i)
  {
    hide Xor, Xor64, Low, Wide, WordAt;
    LowXor(mk, Wide(FK[i]));
    LowWide(FK[i]);
  }

  /** One block through the cipher; input and output may be the same block. */
  method OneRound(box: Box, sk: array<ulong>, input: array<octet>, at: nat, output: array<octet>, to: nat)
    requires sk.Length == 32 && at + 16 <= input.Length && to + 16 <= output.Length
    modifies output
    ensures output[..] == Patch(old(output[..]), to, Crypt(box, Lows(sk[..]), old(input[at..at + 16])))
  {
    hide F64, Low, X, WordAt, WordBytes;
    ghost var b := input[at..at + 16];
    ghost var rk := Lows(sk[..]);
    ghost var out := output[..];
    var buf := new ulong[36];
    GetBlock(input, at, buf);
    FirstX(box, rk, b);
    var i := 0;
    while i < 32
      invariant 0 <= i <= 32
      invariant output[..] == out
      invariant forall j :: 0 <= j < i + 4 ==> Low(buf[j]) == X(box, rk, b, j)
    {
      LowX(box, rk, b, i, buf[i], buf[i + 1], buf[i + 2], buf[i + 3], sk[i]);
      buf[i + 4] := F64(box, buf[i], buf[i + 1], buf[i + 2], buf[i + 3], sk[i]);
      i := i + 1;
    }
    PutLast(buf, output, to);
  }

  lemma FirstX(box: Box, rk: seq<word>, b: seq<octet>)
    requires |rk| == 32 && |b| == 16
    ensures forall j :: 0 <= j < 4 ==> X(box, rk, b, j) == WordAt(b, j)
  {
  }

  /** The last four words, in reverse order. */
  method PutLast(buf: array<ulong>, output: array<octet>, to: nat)
    requires buf.Length == 36 && to + 16 <= output.Length
    modifies output
    ensures output[..] == Patch(old(output[..]), to,
      WordBytes(Low(buf[35])) + WordBytes(Low(buf[34])) + WordBytes(Low(buf[33])) + WordBytes(Low(buf[32])))
  {
    hide Low, WordBytes, Patch;
    ghost var out := output[..];
    ghost var a, b, c, d := WordBytes(Low(buf[35])), WordBytes(Low(buf[34])), WordBytes(Low(buf[33])), WordBytes(Low(buf[32]));
    PutWord(buf[35], output, to);
    PutWord(buf[34], output, to + 4);
    PatchMore(out, to, a, b);
    PutWord(buf[33], output, to + 8);
    PatchMore(out, to, a + b, c);
    PutWord(buf[32], output, to + 12);
    PatchMore(out, to, a + b + c, d);
  }
}
