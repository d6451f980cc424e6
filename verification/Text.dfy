/** Number printing of the string library (`Itoa`). */
module Text {

  const INT_MAX := 0x7fff_ffff
  const INT_MIN := -0x8000_0000

  function DigitChar(d: nat): char
    requires d < 10
  {
    '0' + d as char
  }

  function Digits(n: nat): (s: string)
    ensures s != [] && forall k :: 0 <= k < |s| ==> '0' <= s[k] <= '9'
  {
    if n < 10 then [DigitChar(n)] else Digits(n / 10) + [DigitChar(n % 10)]
  }

  /** The decimal text of an integer. */
  function Decimal(n: int): string {
    if n < 0 then ['-'] + Digits(-n) else Digits(n)
  }

  function Reversed(s: string): (r: string)
    ensures |r| == |s|
  {
    if s == [] then [] else Reversed(s[1..]) + [s[0]]
  }

  lemma {:induction false} ReversedAt(s: string, k: nat)
    requires k < |s|
    ensures Reversed(s)[k] == s[|s| - 1 - k]
  {
    if k < |s| - 1 { ReversedAt(s[1..], k); }
  }

  /** The digits above the ones already taken off. */
  ghost function Front(n: nat): string { if n > 0 then Digits(n) else [] }

  lemma DigitsStep(n: nat, rev: string)
    ensures n > 0 ==> Front(n) + Reversed(rev) == Front(n / 10) + Reversed(rev + [DigitChar(n % 10)])
    ensures Digits(n) == Front(n / 10) + Reversed([DigitChar(n % 10)])
  {
    ReversedAppend(rev, DigitChar(n % 10));
    ReversedAppend([], DigitChar(n % 10));
    assert [] + [DigitChar(n % 10)] == [DigitChar(n % 10)];
  }

  lemma {:induction false} ReversedAppend(s: string, c: char)
    ensures Reversed(s + [c]) == [c] + Reversed(s)
  {
    if s == [] {
      assert [] + [c] == [c];
    } else {
      assert (s + [c])[1..] == s[1..] + [c];
      ReversedAppend(s[1..], c);
    }
  }

  /** The first loop of `Itoa`: the digits come out in reverse. */
  method PutDigits(value: nat, str: array<char>) returns (len: nat)
    requires |Digits(value)| <= str.Length
    modifies str
    ensures len == |Digits(value)| && Reversed(str[..len]) == Digits(value)
    ensures forall k :: len <= k < str.Length ==> str[k] == old(str[k])
  {
    hide Front, Reversed, DigitChar, Digits;
    var n := value;
    DigitsSome(n);
    DigitsStep(n, []);
    ghost var rev := [DigitChar(n % 10)];
    str[0] := DigitChar(n % 10);
    len := 1;
    n := n / 10;
    while n > 0
      invariant 0 < len == |rev| <= str.Length
      invariant Digits(value) == Front(n) + Reversed(rev)
      invariant str[..len] == rev
      invariant forall k :: len <= k < str.Length ==> str[k] == old(str[k])
      decreases n
    {
      DigitsStep(n, rev);
      DigitsLeft(n, rev);
      ghost var next := rev + [DigitChar(n % 10)];
      str[len] := DigitChar(n % 10);
      assert str[..len + 1] == str[..len] + [str[len]];
      rev := next;
      len := len + 1;
      n := n / 10;
    }
    DigitsDone(rev);
  }

  lemma DigitsSome(n: nat)
    ensures |Digits(n)| > 0
  {
  }

  /** While digits are left, the text is longer than what is written. */
  lemma DigitsLeft(n: nat, rev: string)
    requires n > 0
    ensures |Front(n) + Reversed(rev)| > |rev|
  {
    hide Digits;
  }

  lemma DigitsDone(rev: string)
    ensures Front(0) + Reversed(rev) == Reversed(rev)
  {
  }

  lemma DecimalReversed(value: int, digits: string)
    requires Reversed(digits) == Digits(if value < 0 then -value else value)
    ensures Reversed(if value < 0 then digits + ['-'] else digits) == Decimal(value)
  {
    ReversedAppend(digits, '-');
  }

  /** `Itoa`: the reversed digits are turned round in place.  The smallest integer
      is left out because its negation overflows. */
  method Itoa(value: int, str: array<char>) returns (len: nat)
    requires INT_MIN < value <= INT_MAX && |Decimal(value)| < str.Length
    modifies str
    ensures len == |Decimal(value)| && str[..len] == Decimal(value) && str[len] == '\0'
    ensures forall k :: len < k < str.Length ==> str[k] == old(str[k])
  {
    var n := if value < 0 then -value else value;
    len := PutDigits(n, str);
    ghost var digits := str[..len];
    DecimalReversed(value, digits);
    if value < 0 {
      str[len] := '-';
      len := len + 1;
    }
    str[len] := '\0';
    assert str[..len] == if value < 0 then digits + ['-'] else digits;
    Flip(str, len);
  }

  /** The second loop of `Itoa`: the first `len` characters are turned round. */
  method Flip(str: array<char>, len: nat)
    requires len <= str.Length
    modifies str
    ensures str[..len] == Reversed(old(str[..len]))
    ensures forall k :: len <= k < str.Length ==> str[k] == old(str[k])
  {
    var i := 0;
    while i < len / 2
      invariant 0 <= i <= len / 2
      invariant forall k :: 0 <= k < i ==> str[k] == old(str[len - 1 - k]) && str[len - 1 - k] == old(str[k])
      invariant forall k :: i <= k < len - i ==> str[k] == old(str[k])
      invariant forall k :: len <= k < str.Length ==> str[k] == old(str[k])
    {
      var temp := str[i];
      str[i] := str[len - 1 - i];
      str[len - 1 - i] := temp;
      i := i + 1;
    }
    ghost var was := old(str[..len]);
    forall k | 0 <= k < len ensures str[k] == Reversed(was)[k] { ReversedAt(was, k); }
  }

  function Pow10(k: nat): nat { if k == 0 then 1 else 10 * Pow10(k - 1) }

  lemma {:induction false} DigitsLength(n: nat, k: nat)
    requires n < Pow10(k) && k > 0
    ensures |Digits(n)| <= k
  {
    if n >= 10 { DigitsLength(n / 10, k - 1); }
  }

  lemma IntDigits(n: nat)
    requires n <= INT_MAX
    ensures |Digits(n)| <= 10
  {
    assert Pow10(4) == 10000;
    assert Pow10(7) == 1000 * Pow10(4);
    assert Pow10(10) == 1000 * Pow10(7);
    DigitsLength(n, 10);
  }

  /** Eleven characters are enough for an `int`. */
  lemma DecimalLength(n: int)
    requires INT_MIN < n <= INT_MAX
    ensures |Decimal(n)| <= 11
  {
    IntDigits(if n < 0 then -n else n);
  }
}
