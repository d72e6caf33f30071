/** The string operations the backend relies on: includes, toLowerCase, String(n) and padStart. */
module Strings {

  /**
   * s.includes(sub): sub occurs in s at some position. Only a string no longer than s can occur in it;
   * the empty string occurs in every string, and every string occurs in itself.
   */
  predicate Contains(s: string, sub: string)
    ensures Contains(s, sub) ==> |sub| <= |s|
    ensures sub == [] ==> Contains(s, sub)
    ensures sub == s ==> Contains(s, sub)
  {
    assert sub == [] || sub == s ==> sub <= s[0..];
    exists i :: 0 <= i <= |s| - |sub| && sub <= s[i..]
  }

  /** toLowerCase restricted to ASCII letters; every other character is left alone. */
  function LowerChar(c: char): char
  {
    if 'A' <= c <= 'Z' then (c as int - 'A' as int + 'a' as int) as char else c
  }

  function ToLower(s: string): (r: string)
    ensures |r| == |s|
    ensures forall i :: 0 <= i < |s| ==> r[i] == LowerChar(s[i])
  {
    if s == [] then [] else [LowerChar(s[0])] + ToLower(s[1..])
  }

  /** Lowering twice is lowering once: a lowered search term is unchanged by the second toLowerCase. */
  lemma ToLowerIdempotent(s: string)
    ensures ToLower(ToLower(s)) == ToLower(s)
  {
  }

  predicate IsDigit(c: char)
  {
    '0' <= c <= '9'
  }

  predicate AllDigits(s: string)
  {
    forall i :: 0 <= i < |s| ==> IsDigit(s[i])
  }

  function DigitChar(d: nat): (c: char)
    requires d < 10
    ensures IsDigit(c)
  {
    ('0' as int + d) as char
  }

  function DigitValue(c: char): (d: nat)
    requires IsDigit(c)
    ensures d < 10
  {
    c as int - '0' as int
  }

  /** The decimal numeral of a natural number, most significant digit first, without leading zeros. */
  function NatToString(n: nat): (r: string)
    ensures |r| >= 1 && AllDigits(r)
    ensures n < 10 <==> |r| == 1
    ensures r[0] == '0' ==> n == 0
    decreases n
  {
    if n < 10 then [DigitChar(n)] else NatToString(n / 10) + [DigitChar(n % 10)]
  }

  /** The value of a string of decimal digits, the inverse of NatToString. */
  function ParseNat(s: string): nat
    requires AllDigits(s)
  {
    if s == [] then 0 else 10 * ParseNat(s[..|s| - 1]) + DigitValue(s[|s| - 1])
  }

  lemma {:induction false} ParseNatToString(n: nat)
    ensures ParseNat(NatToString(n)) == n
    decreases n
  {
    if n >= 10 {
      var r := NatToString(n);
      assert r[..|r| - 1] == NatToString(n / 10);
      ParseNatToString(n / 10);
    }
  }

  /** JavaScript's String(n) for an integer n: a '-' exactly when n is negative, then the digits of |n|. */
  function IntToString(n: int): (r: string)
    ensures |r| >= 1
    ensures r[0] == '-' <==> n < 0
    ensures n < 0 ==> r[1..] == NatToString(-n)
    ensures n >= 0 ==> AllDigits(r) && ParseNat(r) == n
    ensures n < 0 ==> ParseNat(r[1..]) == -n
  {
    ParseNatToString(if n < 0 then -n else n);
    assert IsDigit(NatToString(if n < 0 then -n else n)[0]);
    if n < 0 then "-" + NatToString(-n) else NatToString(n)
  }

  /** Different integers have different numerals, so String(n) loses nothing. */
  lemma IntToStringInjective(a: int, b: int)
    requires IntToString(a) == IntToString(b)
    ensures a == b
  {
    var na, nb := if a < 0 then -a else a, if b < 0 then -b else b;
    assert NatToString(na) == NatToString(nb);
    ParseNatToString(na);
    ParseNatToString(nb);
  }

  /**
   * s.padStart(2, '0'): zeros in front until the string is two characters long; s itself when it is
   * long enough.
   */
  function PadStart2(s: string): (r: string)
    ensures |r| == if |s| >= 2 then |s| else 2
  {
    if |s| >= 2 then s else seq(2 - |s|, _ => '0') + s
  }

  /** The padded string ends with s, and everything in front of s is a '0'. */
  lemma PadStart2Pads(s: string)
    ensures var r := PadStart2(s); r[|r| - |s|..] == s && forall i :: 0 <= i < |r| - |s| ==> r[i] == '0'
  {
  }

  /** For 0 <= n < 100, String(n).padStart(2, '0') is exactly the two decimal digits of n. */
  lemma {:induction false} PadStart2TwoDigits(n: int)
    requires 0 <= n < 100
    ensures PadStart2(IntToString(n)) == [DigitChar(n / 10), DigitChar(n % 10)]
  {
    if n >= 10 {
      assert NatToString(n / 10) == [DigitChar(n / 10)];
    }
  }
}
