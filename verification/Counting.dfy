/** Arithmetic of the 32 bit message counters of the digests. */
module Counting {

  /** The 32 bit word above and below. */
  function Hi(x: nat): (r: nat)
    ensures r < 0x1_0000_0000
  {
    x / 0x1_0000_0000 % 0x1_0000_0000
  }

  function Lo(x: nat): (r: nat)
    ensures r < 0x1_0000_0000
  {
    x % 0x1_0000_0000
  }

  lemma Split(x: int, q: int, r: int)
    requires x == q * 0x1_0000_0000 + r && 0 <= r < 0x1_0000_0000
    ensures x / 0x1_0000_0000 == q && x % 0x1_0000_0000 == r
  {
  }

  lemma SplitAdd(a: int, b: int)
    ensures (a % 0x1_0000_0000 + b) % 0x1_0000_0000 == (a + b) % 0x1_0000_0000
  {
    var q, r := a / 0x1_0000_0000, a % 0x1_0000_0000;
    var q', r' := (r + b) / 0x1_0000_0000, (r + b) % 0x1_0000_0000;
    Split(a + b, q + q', r');
  }

  /** Adding `p` high and `l` low with a carry that is seen from a smaller sum keeps
      the low 64 bits. */
  lemma AddWithCarry(x: nat, p: nat, l: nat)
    requires l < 0x1_0000_0000
    ensures
      var lo := (Lo(x) + l) % 0x1_0000_0000;
      var carry := if lo < Lo(x) then 1 else 0;
      && lo == Lo(x + p * 0x1_0000_0000 + l)
      && (Hi(x) + carry + p) % 0x1_0000_0000 == Hi(x + p * 0x1_0000_0000 + l)
  {
    var q, r := x / 0x1_0000_0000, x % 0x1_0000_0000;
    var carry := if r + l >= 0x1_0000_0000 then 1 else 0;
    var lo := r + l - carry * 0x1_0000_0000;
    Split(x + p * 0x1_0000_0000 + l, q + p + carry, lo);
    Split(r + l, carry, lo);
    SplitAdd(q, carry + p);
  }

  lemma Mod64(n: int, k: int)
    ensures (n - 64 * k) % 64 == n % 64
  {
    var q, r := n / 64, n % 64;
    Unique64(n - 64 * k, q - k, r);
  }

  lemma Unique64(x: int, q: int, r: int)
    requires x == 64 * q + r && 0 <= r < 64
    ensures x % 64 == r
  {
  }

  /** The place in the block is known from the low word. */
  lemma LoMod64(n: nat)
    ensures Lo(n) % 64 == n % 64
  {
    var q := n / 0x1_0000_0000;
    assert Lo(n) == n - 64 * (q * 0x400_0000);
    Mod64(n, q * 0x400_0000);
  }

  lemma LoBitsMod64(n: nat)
    ensures Lo(8 * n) / 8 % 64 == n % 64
  {
    var q := 8 * n / 0x1_0000_0000;
    assert Lo(8 * n) == 8 * (n - q * 0x2000_0000);
    assert Lo(8 * n) / 8 == n - 64 * (q * 0x80_0000);
    Mod64(n, q * 0x80_0000);
  }

  /** `count_lo += length << 3` with its carry, and `count_hi += length >> 29`. */
  lemma CountBits(n: nat, len: nat)
    ensures
      var lo := (Lo(8 * n) + 8 * len) % 0x1_0000_0000;
      var carry := if lo < Lo(8 * n) then 1 else 0;
      lo == Lo(8 * (n + len)) && (Hi(8 * n) + carry + len / 0x2000_0000) % 0x1_0000_0000 == Hi(8 * (n + len))
  {
    var p, l := len / 0x2000_0000, 8 * (len % 0x2000_0000);
    AddWithCarry(8 * n, p, l);
    assert 8 * (n + len) == 8 * n + p * 0x1_0000_0000 + l;
    SplitAdd(8 * len, Lo(8 * n));
    Split(8 * len, p, l);
  }

  /** `total[0] += ilen` with its carry into `total[1]`. */
  lemma CountBytes(n: nat, len: nat)
    requires len < 0x1_0000_0000
    ensures
      var lo := (Lo(n) + len) % 0x1_0000_0000;
      var carry := if lo < len then 1 else 0;
      lo == Lo(n + len) && (Hi(n) + carry) % 0x1_0000_0000 == Hi(n + len)
  {
    AddWithCarry(n, 0, len);
    var lo := (Lo(n) + len) % 0x1_0000_0000;
    Split(Lo(n) + len, if Lo(n) + len >= 0x1_0000_0000 then 1 else 0, lo);
  }

  /** The bit count from the byte count: the top three bits of the low word go into
      the high word. */
  lemma BitsOfBytes(n: nat)
    ensures Lo(8 * n) == Lo(n) * 8 % 0x1_0000_0000
    ensures Hi(8 * n) == (Hi(n) * 8 + Lo(n) / 0x2000_0000) % 0x1_0000_0000
  {
    var q, r := n / 0x1_0000_0000, n % 0x1_0000_0000;
    var t, s := r / 0x2000_0000, r % 0x2000_0000;
    assert 8 * n == (8 * q + t) * 0x1_0000_0000 + 8 * s;
    Split(8 * n, 8 * q + t, 8 * s);
    Split(8 * r, t, 8 * s);
    SplitAdd8(q, t);
  }

  lemma SplitAdd8(q: nat, t: nat)
    ensures (q % 0x1_0000_0000 * 8 + t) % 0x1_0000_0000 == (8 * q + t) % 0x1_0000_0000
  {
    var a, r := q / 0x1_0000_0000, q % 0x1_0000_0000;
    var b, s := (8 * r + t) / 0x1_0000_0000, (8 * r + t) % 0x1_0000_0000;
    Split(8 * q + t, 8 * a + b, s);
  }
}
