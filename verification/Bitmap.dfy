/** Bitmaps in byte buffers (memfunc.c). */
module Bitmap {
  import opened Base
  /** The byte `1 << i`. */
  function Single(i: nat): octet
    requires i < 8
  {
    if i == 0 then 0x01 else if i == 1 then 0x02 else if i == 2 then 0x04 else if i == 3 then 0x08
    else if i == 4 then 0x10 else if i == 5 then 0x20 else if i == 6 then 0x40 else 0x80
  }

  predicate Bit(b: octet, i: nat)
    requires i < 8
  {
    b & Single(i) != 0
  }

  predicate BitAt(bitmap: seq<octet>, site: nat)
    requires site < 8 * |bitmap|
  {
    Bit(bitmap[site / 8], site % 8)
  }

  function Or(x: octet, y: octet): octet { x | y }

  /** The byte `0x7f >> (7 - r)`. */
  function Lowest(r: nat): octet
    requires 0 < r < 8
  {
    if r == 1 then 0x01 else if r == 2 then 0x03 else if r == 3 then 0x07 else if r == 4 then 0x0f
    else if r == 5 then 0x1f else if r == 6 then 0x3f else 0x7f
  }

  lemma Shifted(i: nat)
    requires i < 8
    ensures (1 as octet) << i == Single(i)
    ensures i > 0 ==> (0x7f as octet) >> (7 - i) == Lowest(i)
  {
  }

  lemma OrBit(b: octet, i: nat, j: nat)
    requires i < 8 && j < 8
    ensures Bit(Or(b, Single(i)), j) == (Bit(b, j) || i == j)
  {
  }

  lemma Full(b: octet)
    ensures b == 0xff <==> forall j :: 0 <= j < 8 ==> Bit(b, j)
  {
    if forall j :: 0 <= j < 8 ==> Bit(b, j) {
      assert Bit(b, 0) && Bit(b, 1) && Bit(b, 2) && Bit(b, 3) && Bit(b, 4) && Bit(b, 5) && Bit(b, 6) && Bit(b, 7);
    }
  }

  lemma LowestBits(b: octet, r: nat)
    requires 0 < r < 8
    ensures b == Lowest(r) <==> forall j :: 0 <= j < 8 ==> Bit(b, j) == (j < r)
  {
    if forall j :: 0 <= j < 8 ==> Bit(b, j) == (j < r) {
      assert Bit(b, 0) == (0 < r) && Bit(b, 1) == (1 < r) && Bit(b, 2) == (2 < r) && Bit(b, 3) == (3 < r);
      assert Bit(b, 4) == (4 < r) && Bit(b, 5) == (5 < r) && Bit(b, 6) == (6 < r) && Bit(b, 7) == (7 < r);
    }
  }

  /** Sets one bit and no other. */
  method Set(bitmap: array<octet>, site: nat)
    requires site < 8 * bitmap.Length
    modifies bitmap
    ensures forall i :: 0 <= i < 8 * bitmap.Length ==> (BitAt(bitmap[..], i) <==> (i == site || old(BitAt(bitmap[..], i))))
  {
    hide Bit, Or, Single;
    ghost var was := bitmap[..];
    Shifted(site % 8);
    var c := (1 as octet) << (site % 8);
    bitmap[site / 8] := Or(bitmap[site / 8], c);
    forall i | 0 <= i < 8 * bitmap.Length
      ensures BitAt(bitmap[..], i) <==> (i == site || BitAt(was, i))
    {
      SameSite(i, site);
      OrBit(was[site / 8], site % 8, i % 8);
    }
  }

  lemma SameSite(i: nat, k: nat)
    ensures i == k <==> (i / 8 == k / 8 && i % 8 == k % 8)
  {
  }

  /** The test behind the file transfer: true exactly when the first `size` bits are set and
      the other bits of the last byte are clear. */
  method IsAllSet(bitmap: array<octet>, size: nat) returns (r: bool)
    requires (size + 7) / 8 == bitmap.Length
    ensures r <==> forall i :: 0 <= i < 8 * bitmap.Length ==> (BitAt(bitmap[..], i) <==> i < size)
  {
    hide Bit;
    ghost var m := bitmap[..];
    var i := 0;
    while i < size / 8
      invariant i <= size / 8 && bitmap[..] == m
      invariant forall k :: 0 <= k < 8 * i ==> BitAt(m, k)
    {
      if bitmap[i] != 0xff {
        HoleIn(m, i, size);
        return false;
      }
      FullByte(m, i);
      i := i + 1;
    }
    if size % 8 == 0 {
      return true;
    }
    Shifted(size % 8);
    var c := (0x7f as octet) >> (7 - size % 8);
    LastByte(m, i, size);
    r := bitmap[i] == c;
  }

  lemma FullByte(m: seq<octet>, i: nat)
    requires i < |m| && m[i] == 0xff
    ensures forall k :: 8 * i <= k < 8 * i + 8 ==> BitAt(m, k)
  {
    hide Bit;
    Full(m[i]);
  }

  lemma HoleIn(m: seq<octet>, i: nat, size: nat)
    requires i < |m| && 8 * i + 8 <= size && m[i] != 0xff
    ensures exists k :: 0 <= k < 8 * |m| && k < size && !BitAt(m, k)
  {
    hide Bit;
    Full(m[i]);
    var j :| 0 <= j < 8 && !Bit(m[i], j);
    assert !BitAt(m, 8 * i + j);
  }

  lemma LastByte(m: seq<octet>, i: nat, size: nat)
    requires i == size / 8 && i + 1 == |m| && size % 8 != 0
    ensures m[i] == Lowest(size % 8) <==> forall k :: 8 * i <= k < 8 * |m| ==> (BitAt(m, k) <==> k < size)
  {
    hide Bit;
    LowestBits(m[i], size % 8);
    if forall k :: 8 * i <= k < 8 * |m| ==> (BitAt(m, k) <==> k < size) {
      forall j | 0 <= j < 8
        ensures Bit(m[i], j) == (j < size % 8)
      {
        assert BitAt(m, 8 * i + j) <==> 8 * i + j < size;
      }
    }
  }
}
