/** The radix64 codec (radix64.c) against section 4 of RFC 4648, with the padding omitted
    as section 3.2 allows. Characters and bytes are numbers from 0 to 255. */
module Radix64 {
  import opened Base
  const UPPER: string := "ABCDEFGHIJKLMNOPQRSTUVWXYZ"
  const LOWER: string := "abcdefghijklmnopqrstuvwxyz"
  const OTHERS: string := "0123456789+/"

  const TABLE: string := UPPER + LOWER + OTHERS

  // ------------------------------------------------------------------------
  // The standard: groups of 24 bits

  /** The encoding character of a 6 bit value. */
  function Char(v: int): char
    requires 0 <= v < 64
  {
    if v < 26 then 'A' + v as char
    else if v < 52 then 'a' + (v - 26) as char
    else if v < 62 then '0' + (v - 52) as char
    else if v == 62 then '+' else '/'
  }

  /** A group of three bytes is read as a 24 bit number and cut into four 6 bit values; a
      shorter last group is filled up with zero bits to a whole number of values. */
  function Group(b: seq<byte>): (v: seq<int>)
    requires 0 < |b| <= 3
    ensures |v| == |b| + 1 && forall k :: 0 <= k < |v| ==> 0 <= v[k] < 64
  {
    var b0: int := b[0];
    if |b| == 1 then
      var g := b0 * 0x10;
      [g / 64, g % 64]
    else
      var b1: int := b[1];
      if |b| == 2 then
        var g := (b0 * 0x100 + b1) * 4;
        [g / 4096, g / 64 % 64, g % 64]
      else
        var b2: int := b[2];
        var g := b0 * 0x1_0000 + b1 * 0x100 + b2;
        [g / 262144, g / 4096 % 64, g / 64 % 64, g % 64]
  }

  function Values(bin: seq<byte>): (v: seq<int>)
    ensures forall k :: 0 <= k < |v| ==> 0 <= v[k] < 64
  {
    if bin == [] then []
    else if |bin| <= 3 then Group(bin)
    else Group(bin[..3]) + Values(bin[3..])
  }

  function Chars(v: seq<int>): (s: string)
    requires forall k :: 0 <= k < |v| ==> 0 <= v[k] < 64
    ensures |s| == |v|
  {
    if v == [] then "" else [Char(v[0])] + Chars(v[1..])
  }

  function Encode(bin: seq<byte>): string { Chars(Values(bin)) }

  // ------------------------------------------------------------------------
  // Lengths

  function BinToRadixLen(length: nat): nat { (length * 4 + 2) / 3 }

  function RadixToBinLen(length: nat): int {
    if length % 4 == 1 then EINVAL
    else if length % 4 == 0 then length / 4 * 3
    else length / 4 * 3 + length % 4 - 1
  }

  lemma {:induction false} EncodedLength(bin: seq<byte>)
    ensures |Values(bin)| == BinToRadixLen(|bin|)
  {
    if |bin| > 3 {
      EncodedLength(bin[3..]);
    }
  }

  /** The second length undoes the first. */
  lemma LengthsInverse(n: nat)
    ensures RadixToBinLen(BinToRadixLen(n)) == n
  {
    var q, r := n / 3, n % 3;
    assert n == 3 * q + r;
    assert BinToRadixLen(n) == 4 * q + (if r == 0 then 0 else r + 1);
  }

  // ------------------------------------------------------------------------
  // Decoding

  /** `bin_from_radix64_char`; the padding character stands for 64. */
  function ValueOf(c: char): (v: byte)
    ensures v <= 64 || v == 0xff
  {
    if 'A' <= c <= 'Z' then c as int - 'A' as int
    else if 'a' <= c <= 'z' then c as int - 'a' as int + 26
    else if '0' <= c <= '9' then c as int - '0' as int + 52
    else if c == '+' then 62
    else if c == '/' then 63
    else if c == '=' then 64
    else 0xff
  }

  predicate Known(c: char) { ValueOf(c) != 0xff }

  /** A character has the value at whose place it stands in the alphabet, and no other
      character but the padding has one. */
  lemma ValueExact(c: char)
    ensures ValueOf(c) < 64 ==> Char(ValueOf(c)) == c
    ensures ValueOf(c) == 64 <==> c == '='
    ensures !Known(c) <==> c != '=' && forall v :: 0 <= v < 64 ==> Char(v) != c
  {
    if !Known(c) && exists v :: 0 <= v < 64 && Char(v) == c {
      var v :| 0 <= v < 64 && Char(v) == c;
      CharBack(v);
      assert false;
    }
  }

  lemma CharBack(v: int)
    requires 0 <= v < 64
    ensures ValueOf(Char(v)) == v && Known(Char(v))
  {
  }

  /** Two to four values, as bytes; the additions are those of unsigned chars. */
  function Bytes(v: seq<int>): (b: seq<byte>)
    requires 2 <= |v| <= 4 && forall k :: 0 <= k < |v| ==> 0 <= v[k] <= 64
    ensures |b| == |v| - 1
  {
    [(v[0] * 4 + v[1] / 16) % 256]
    + (if |v| >= 3 then [(v[1] * 16 + v[2] / 4) % 256] else [])
    + (if |v| == 4 then [(v[2] * 64 + v[3]) % 256] else [])
  }

  function ValuesOf(s: string): (v: seq<int>)
    ensures |v| == |s|
  {
    if s == "" then [] else [ValueOf(s[0])] + ValuesOf(s[1..])
  }

  predicate AllKnown(s: string) { forall k :: 0 <= k < |s| ==> Known(s[k]) }

  lemma {:induction false} ValuesAt(s: string, k: nat)
    requires k < |s|
    ensures ValuesOf(s)[k] == ValueOf(s[k])
  {
    if k > 0 {
      ValuesAt(s[1..], k - 1);
    }
  }

  lemma Cut64(g: int, q: int, r: int)
    requires 0 <= r < 64 && g == 64 * q + r
    ensures g / 64 == q && g % 64 == r
  {
  }

  lemma FourValues(g: int, v0: int, v1: int, v2: int, v3: int)
    requires 0 <= v1 < 64 && 0 <= v2 < 64 && 0 <= v3 < 64
    requires g == 64 * (64 * (64 * v0 + v1) + v2) + v3
    ensures g / 262144 == v0 && g / 4096 % 64 == v1 && g / 64 % 64 == v2 && g % 64 == v3
  {
    var x := 64 * v0 + v1;
    var y := 64 * x + v2;
    Cut64(g, y, v3);
    Cut64(y, x, v2);
    Cut64(x, v0, v1);
    assert g / 4096 == g / 64 / 64 && g / 262144 == g / 64 / 64 / 64;
  }

  /** The values as the program shifts them together. */
  lemma Shifts(b: seq<byte>)
    requires 0 < |b| <= 3
    ensures Group(b)[0] == b[0] / 4
    ensures Group(b)[1] == b[0] % 4 * 16 + (if |b| > 1 then b[1] / 16 else 0)
    ensures |b| > 1 ==> Group(b)[2] == b[1] % 16 * 4 + (if |b| > 2 then b[2] / 64 else 0)
    ensures |b| > 2 ==> Group(b)[3] == b[2] % 64
  {
    var b0: int := b[0];
    if |b| == 1 {
      Cut64(b0 * 16, b0 / 4, b0 % 4 * 16);
    } else {
      var b1: int := b[1];
      if |b| == 2 {
        FourValues((b0 * 0x100 + b1) * 4, 0, b0 / 4, b0 % 4 * 16 + b1 / 16, b1 % 16 * 4);
        ThreeValues(b0, b1);
      } else {
        var b2: int := b[2];
        FourValues(b0 * 0x1_0000 + b1 * 0x100 + b2, b0 / 4, b0 % 4 * 16 + b1 / 16, b1 % 16 * 4 + b2 / 64, b2 % 64);
      }
    }
  }

  lemma ThreeValues(b0: int, b1: int)
    requires 0 <= b0 < 256 && 0 <= b1 < 256
    ensures (b0 * 0x100 + b1) * 4 / 4096 == b0 / 4
  {
  }

  lemma TwoBack(x: int, y: int)
    requires 0 <= x < 256 && 0 <= y < 16
    ensures (x / 4 * 4 + (x % 4 * 16 + y) / 16) % 256 == x
  {
  }

  lemma ThreeBack(w: int, x: int, y: int)
    requires 0 <= w < 4 && 0 <= x < 256 && 0 <= y < 4
    ensures ((w * 16 + x / 16) * 16 + (x % 16 * 4 + y) / 4) % 256 == x
  {
    assert (x % 16 * 4 + y) / 4 == x % 16;
  }

  lemma FourBack(w: int, x: int)
    requires 0 <= w < 16 && 0 <= x < 256
    ensures ((w * 4 + x / 64) * 64 + x % 64) % 256 == x
  {
  }

  lemma GroupBack(b: seq<byte>)
    requires 0 < |b| <= 3
    ensures Bytes(Group(b)) == b
  {
    hide Group;
    Shifts(b);
    TwoBack(b[0], if |b| > 1 then b[1] / 16 else 0);
    if |b| > 1 {
      ThreeBack(b[0] % 4, b[1], if |b| > 2 then b[2] / 64 else 0);
    }
    if |b| > 2 {
      FourBack(b[1] % 16, b[2]);
    }
  }

  // ------------------------------------------------------------------------
  // Round trip

  predicate Proper(v: seq<int>) { |v| % 4 != 1 && forall k :: 0 <= k < |v| ==> 0 <= v[k] <= 64 }

  function Joined(v: seq<int>): (b: seq<byte>)
    requires Proper(v)
  {
    if v == [] then [] else if |v| <= 4 then Bytes(v) else Bytes(v[..4]) + Joined(v[4..])
  }

  function Decode(s: string): Result<seq<byte>> {
    if |s| % 4 == 1 || !AllKnown(s) then Err(EINVAL)
    else
      ProperValues(s);
      Ok(Joined(ValuesOf(s)))
  }

  lemma ProperValues(s: string)
    requires |s| % 4 != 1 && AllKnown(s)
    ensures Proper(ValuesOf(s))
  {
    forall k | 0 <= k < |s|
      ensures 0 <= ValuesOf(s)[k] <= 64
    {
      ValuesAt(s, k);
      assert Known(s[k]);
    }
  }

  lemma {:induction false} CharsBack(v: seq<int>)
    requires forall k :: 0 <= k < |v| ==> 0 <= v[k] < 64
    ensures ValuesOf(Chars(v)) == v && AllKnown(Chars(v))
  {
    hide Char, ValueOf, Known;
    if v != [] {
      CharBack(v[0]);
      CharsBack(v[1..]);
      var rest := Chars(v[1..]);
      assert Chars(v)[1..] == rest;
    }
  }

  lemma {:induction false} ValuesBack(bin: seq<byte>)
    ensures Proper(Values(bin)) && Joined(Values(bin)) == bin
  {
    hide Group, Bytes;
    EncodedLength(bin);
    LengthNotOne(|bin|);
    if bin != [] && |bin| <= 3 {
      GroupBack(bin);
    } else if |bin| > 3 {
      var g, rest := Group(bin[..3]), Values(bin[3..]);
      EncodedLength(bin[3..]);
      ValuesBack(bin[3..]);
      GroupBack(bin[..3]);
      assert (g + rest)[..4] == g && (g + rest)[4..] == rest;
      assert bin[..3] + bin[3..] == bin;
    }
  }

  lemma LengthNotOne(n: nat)
    ensures BinToRadixLen(n) % 4 != 1 && (n > 0 ==> BinToRadixLen(n) > 1)
  {
    LengthsInverse(n);
  }

  /** Decoding undoes encoding for every byte string. */
  lemma RoundTrip(bin: seq<byte>)
    ensures Decode(Encode(bin)) == Ok(bin)
  {
    CharsBack(Values(bin));
    ValuesBack(bin);
  }

  // ------------------------------------------------------------------------
  // The encoder

  lemma UpperCodes(v: int)
    requires 0 <= v < 26
    ensures UPPER[v] as int == 65 + v
  {
  }

  lemma LowerCodes(v: int)
    requires 0 <= v < 26
    ensures LOWER[v] as int == 97 + v
  {
  }

  lemma OtherCodes(v: int)
    requires 0 <= v < 12
    ensures OTHERS[v] as int == if v < 10 then 48 + v else if v == 10 then 43 else 47
  {
  }

  /** The table of the program is the alphabet of the standard. */
  lemma InTable(v: int)
    requires 0 <= v < 64
    ensures TABLE[v] == Char(v)
  {
    if v < 26 {
      UpperCodes(v);
    } else if v < 52 {
      LowerCodes(v - 26);
    } else {
      OtherCodes(v - 52);
    }
  }

  /** `v` stands in the buffer from `at` on, as numbers. */
  predicate Holds(r: string, at: nat, v: seq<int>) {
    at + |v| <= |r| && forall k :: 0 <= k < |v| ==> r[at + k] as int == v[k]
  }

  /** `bin_to_radix64`: the values first, then each value is replaced by its character. */
  method BinToRadix64(radix: array<char>, length: nat, bin: array<byte>) returns (n: nat)
    requires length <= bin.Length && BinToRadixLen(length) < radix.Length
    modifies radix
    ensures n == BinToRadixLen(length) && radix[..n] == Encode(bin[..length]) && radix[n] == '\0'
  {
    hide Group, Values, Char, Chars;
    ghost var data := bin[..length];
    ghost var v := Values(data);
    EncodedLength(data);
    n := 0;
    var i := 0;
    ghost var rest := v;
    assert data[0..] == data;
    while i < length
      invariant n <= |v| && rest == v[n..] && (i < length ==> rest == Values(data[i..]))
      invariant i >= length ==> n == |v|
      invariant forall k :: 0 <= k < n ==> radix[k] as int == v[k]
    {
      ghost var m := Least(3, length - i);
      FrontGroup(data, i);
      ghost var g := Group(bin[i..i + m]);
      assert data[i..i + m] == bin[i..i + m];
      ghost var before := radix[..];
      var end := PutGroup(radix, n, bin, i, length);
      Extend(before, radix[..], v, n, g);
      rest := v[end..];
      n := end;
      i := i + 3;
    }
    Translate(radix, n, v);
    radix[n] := '\0';
  }

  function Least(a: int, b: int): int { if a < b then a else b }

  lemma FrontGroup(data: seq<byte>, i: nat)
    requires i < |data|
    ensures var m := Least(3, |data| - i);
      && Values(data[i..]) == Group(data[i..i + m]) + (if i + 3 < |data| then Values(data[i + 3..]) else [])
  {
    hide Group;
    var d := data[i..];
    if |d| <= 3 {
      assert data[i..i + |d|] == d;
    } else {
      assert d[..3] == data[i..i + 3] && d[3..] == data[i + 3..];
    }
  }

  lemma Extend(before: string, after: string, v: seq<int>, n: nat, g: seq<int>)
    requires n + |g| <= |v| && |before| == |after| && n + |g| <= |after|
    requires v[n..n + |g|] == g
    requires forall k :: 0 <= k < n ==> before[k] as int == v[k]
    requires after[..n] == before[..n] && Holds(after, n, g)
    ensures forall k :: 0 <= k < n + |g| ==> after[k] as int == v[k]
  {
    forall k | 0 <= k < n + |g|
      ensures after[k] as int == v[k]
    {
      if k < n {
        assert after[k] == after[..n][k] == before[..n][k];
      } else {
        assert after[n + (k - n)] as int == g[k - n];
        assert v[n..n + |g|][k - n] == v[k];
      }
    }
  }

  /** One turn of the loop: the values of up to three bytes. */
  method PutGroup(radix: array<char>, at: nat, bin: array<byte>, i: nat, length: nat) returns (n: nat)
    requires i < length <= bin.Length && at + Least(3, length - i) + 1 <= radix.Length
    modifies radix
    ensures n == at + Least(3, length - i) + 1 && radix[..at] == old(radix[..at])
    ensures Holds(radix[..], at, Group(bin[i..i + Least(3, length - i)]))
  {
    hide Group;
    ghost var b := bin[i..i + Least(3, length - i)];
    Shifts(b);
    var b0: int := bin[i];
    n := at;
    radix[n] := (b0 / 4) as char;
    n := n + 1;
    radix[n] := (b0 % 4 * 16) as char;
    if length - i == 1 {
      n := n + 1;
      return;
    }
    var b1: int := bin[i + 1];
    radix[n] := (radix[n] as int + b1 / 16) as char;
    n := n + 1;
    radix[n] := (b1 % 16 * 4) as char;
    if length - i == 2 {
      n := n + 1;
      return;
    }
    var b2: int := bin[i + 2];
    radix[n] := (radix[n] as int + b2 / 64) as char;
    n := n + 1;
    radix[n] := (b2 % 64) as char;
    n := n + 1;
  }

  method Translate(radix: array<char>, n: nat, ghost v: seq<int>)
    requires n == |v| < radix.Length && forall k :: 0 <= k < n ==> 0 <= v[k] < 64 && radix[k] as int == v[k]
    modifies radix
    ensures radix[..n] == Chars(v)
  {
    hide Char;
    for i := 0 to n
      invariant forall k :: 0 <= k < i ==> radix[k] == Char(v[k])
      invariant forall k :: i <= k < n ==> radix[k] as int == v[k]
    {
      InTable(v[i]);
      radix[i] := TABLE[radix[i] as int];
    }
    forall k | 0 <= k < n
      ensures Chars(v)[k] == Char(v[k])
    {
      CharsAt(v, k);
    }
  }

  lemma {:induction false} CharsAt(v: seq<int>, k: nat)
    requires k < |v| && forall j :: 0 <= j < |v| ==> 0 <= v[j] < 64
    ensures Chars(v)[k] == Char(v[k])
  {
    if k > 0 {
      CharsAt(v[1..], k - 1);
    }
  }

  // ------------------------------------------------------------------------
  // The decoder

  lemma {:induction false} JoinedMore(v: seq<int>, w: seq<int>)
    requires Proper(v) && |v| % 4 == 0 && Proper(w) && 2 <= |w| <= 4
    ensures Proper(v + w) && Joined(v + w) == Joined(v) + Bytes(w)
  {
    hide Bytes;
    var all := v + w;
    if v == [] {
      assert all == w;
    } else if |v| == 4 {
      assert all[..4] == v && all[4..] == w;
    } else {
      assert all[..4] == v[..4] && all[4..] == v[4..] + w;
      JoinedMore(v[4..], w);
    }
  }

  lemma {:induction false} JoinedLength(v: seq<int>)
    requires Proper(v)
    ensures |Joined(v)| == RadixToBinLen(|v|)
  {
    hide Bytes;
    if |v| > 4 {
      JoinedLength(v[4..]);
    }
  }

  /** The inner loop: the values of up to four characters. */
  method GetGroup(radix: string, i: nat) returns (ok: bool, t: seq<int>)
    requires i < |radix|
    ensures ok <==> forall k :: i <= k < i + Least(4, |radix| - i) ==> Known(radix[k])
    ensures ok ==> |t| == Least(4, |radix| - i) && forall k :: 0 <= k < |t| ==> t[k] == ValueOf(radix[i + k]) && 0 <= t[k] <= 64
  {
    t := [];
    var j := i;
    while j < |radix| && j < i + 4
      invariant i <= j <= i + Least(4, |radix| - i) && |t| == j - i
      invariant forall k :: i <= k < j ==> Known(radix[k])
      invariant forall k :: 0 <= k < |t| ==> t[k] == ValueOf(radix[i + k]) && 0 <= t[k] <= 64
    {
      var v := ValueOf(radix[j]);
      if v == 0xff { return false, t; }
      t := t + [v];
      j := j + 1;
    }
    ok := true;
  }

  /** `radix64_to_bin`: an error exactly for a length that no encoding has or a character that
      is not in the alphabet; otherwise the bytes. */
  method RadixToBin(bin: array<byte>, radix: string) returns (r: int)
    requires |radix| % 4 != 1 ==> RadixToBinLen(|radix|) <= bin.Length
    modifies bin
    ensures match Decode(radix)
      case Err(c) => r == c
      case Ok(b) => r == RadixToBinLen(|radix|) == |b| && bin[..r] == b
  {
    hide Bytes, ValueOf, Joined, ValuesOf;
    var length := |radix|;
    if length % 4 == 1 { return EINVAL; }
    ghost var v: seq<int> := [];
    assert Joined([]) == [] by { JoinedEmpty(); }
    var i := 0;
    while i < length
      invariant i <= length && i % 4 == 0 && |v| == i && Proper(v)
      invariant forall k :: 0 <= k < i ==> v[k] == ValueOf(radix[k]) && Known(radix[k])
      invariant |Joined(v)| == i / 4 * 3 <= bin.Length && bin[..i / 4 * 3] == Joined(v)
    {
      var ok, t := GetGroup(radix, i);
      if !ok { return EINVAL; }
      assert |t| >= 2;
      JoinedMore(v, t);
      JoinedLength(v + t);
      ghost var was := bin[..i / 4 * 3];
      PutBytes(bin, i / 4 * 3, t);
      if |t| < 4 {
        r := length / 4 * 3 + |t| - 1;
        AllValues(radix, v + t);
        return;
      }
      v := v + t;
      i := i + 4;
    }
    AllValues(radix, v);
    r := length / 4 * 3;
  }

  lemma JoinedEmpty()
    ensures Proper([]) && Joined([]) == []
  {
  }

  lemma AllValues(s: string, v: seq<int>)
    requires |v| == |s| && forall k :: 0 <= k < |v| ==> v[k] == ValueOf(s[k]) && Known(s[k])
    ensures ValuesOf(s) == v && AllKnown(s)
  {
    hide ValueOf;
    forall k | 0 <= k < |s|
      ensures ValuesOf(s)[k] == v[k]
    {
      ValuesAt(s, k);
    }
  }

  /** The bytes of a group, as unsigned chars. */
  method PutBytes(bin: array<byte>, at: nat, t: seq<int>)
    requires 2 <= |t| <= 4 && (forall k :: 0 <= k < |t| ==> 0 <= t[k] <= 64) && at + |t| - 1 <= bin.Length
    modifies bin
    ensures bin[..at + |t| - 1] == old(bin[..at]) + Bytes(t)
  {
    bin[at] := (t[0] * 4 + t[1] / 16) % 256;
    if |t| == 2 { return; }
    bin[at + 1] := (t[1] * 16 + t[2] / 4) % 256;
    if |t| == 3 { return; }
    bin[at + 2] := (t[2] * 64 + t[3]) % 256;
  }

  /** Encoding into a buffer and decoding from it. */
  method ThereAndBack(bin: array<byte>) returns (back: array<byte>)
    ensures back[..] == bin[..]
  {
    hide Encode, Decode, BinToRadixLen, RadixToBinLen;
    var n := BinToRadixLen(bin.Length);
    LengthsInverse(bin.Length);
    var radix := new char[n + 1];
    var m := BinToRadix64(radix, bin.Length, bin);
    assert bin[..bin.Length] == bin[..];
    RoundTrip(bin[..]);
    back := new byte[bin.Length];
    var r := RadixToBin(back, radix[..m]);
    assert back[..r] == back[..];
  }
}
