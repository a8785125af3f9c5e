/** Hexadecimal numbers in text: reading them, printing them, and why that is inverse. */
module Hex {
  const NUL := 0 as char

  /** The character at i, NUL at the end of the string. */
  function At(s: string, i: nat): char {
    if i < |s| then s[i] else NUL
  }

  /** Value of a digit of either case, -1 for anything else. */
  function Digit(c: char): (r: int)
    ensures -1 <= r < 16
  {
    if '0' <= c <= '9' then c as int - '0' as int
    else if 'a' <= c <= 'f' then c as int - 'a' as int + 10
    else if 'A' <= c <= 'F' then c as int - 'A' as int + 10
    else -1
  }

  /** The digits are those sixteen, with capital letters as well. */
  lemma DigitExact()
    ensures forall k | 0 <= k < 16 :: Digit("0123456789abcdef"[k]) == k
    ensures forall k | 0 <= k < 16 :: Digit("0123456789ABCDEF"[k]) == k
    ensures forall c {:trigger Digit(c)} :: Digit(c) >= 0 <==> c in "0123456789abcdefABCDEF"
  {
    var digits := "0123456789abcdefABCDEF";
    forall c: char | Digit(c) >= 0
      ensures c in digits
    {
      assert digits[if 'A' <= c <= 'F' then Digit(c) + 6 else Digit(c)] == c;
    }
  }

  /** The number in the cnt digits at i, -1 if one of them is not a digit. */
  function HexAt(s: string, i: nat, cnt: nat): (r: int)
    ensures r >= -1
  {
    if cnt == 0 then 0
    else
      var high := HexAt(s, i, cnt - 1);
      var d := Digit(At(s, i + cnt - 1));
      if high < 0 || d < 0 then -1 else 16 * high + d
  }

  function Pow16(n: nat): (r: nat)
    ensures r > 0
  {
    if n == 0 then 1 else 16 * Pow16(n - 1)
  }

  lemma {:induction false} HexAtBound(s: string, i: nat, cnt: nat)
    ensures HexAt(s, i, cnt) < Pow16(cnt)
  {
    if cnt > 0 {
      HexAtBound(s, i, cnt - 1);
    }
  }

  lemma {:induction false} HexStops(s: string, i: nat, k: nat, cnt: nat)
    requires k < cnt && Digit(At(s, i + k)) < 0
    ensures HexAt(s, i, cnt) == -1
    decreases cnt
  {
    if k < cnt - 1 {
      HexStops(s, i, k, cnt - 1);
    }
  }

  function HexDigit(d: nat): char
    requires d < 16
  {
    "0123456789abcdef"[d]
  }

  function HexText(v: nat, digits: nat): (r: string)
    ensures |r| == digits
  {
    if digits == 0 then "" else HexText(v / 16, digits - 1) + [HexDigit(v % 16)]
  }

  /** The digits stand from the most significant on. */
  lemma {:induction false} HexTextAt(v: nat, digits: nat, k: nat)
    requires k < digits
    ensures HexText(v, digits)[k] == HexDigit(v / Pow16(digits - 1 - k) % 16)
    decreases digits
  {
    if k < digits - 1 {
      var m := digits - 2 - k;
      HexTextAt(v / 16, digits - 1, k);
      Quotients(v, Pow16(m));
    }
  }

  lemma Quotients(v: nat, p: nat)
    requires p > 0
    ensures v / 16 / p == v / (16 * p)
  {
    var q := v / 16;
    assert v == 16 * q + v % 16;
    assert q == p * (q / p) + q % p;
    assert v == 16 * p * (q / p) + (16 * (q % p) + v % 16);
    Quotient(v, 16 * p, q / p, 16 * (q % p) + v % 16);
  }

  lemma Quotient(v: nat, n: nat, q: nat, r: nat)
    requires n > 0 && v == n * q + r && r < n
    ensures v / n == q
  {
    var d := v / n - q;
    assert v == n * (v / n) + v % n;
    assert n * d == r - v % n;
    Multiple(n, d);
  }

  lemma Multiple(n: nat, d: int)
    ensures d > 0 ==> n * d >= n
    ensures d < 0 ==> n * d + n <= 0
  {
  }

  lemma DigitBack(d: nat)
    requires d < 16
    ensures Digit(HexDigit(d)) == d && HexDigit(d) !in [NUL, '\t', ' ', '#', '\n', '\r', 'C', 'S']
    ensures !('A' <= HexDigit(d) <= 'Z')
  {
  }

  /** Printed digits are read back, wherever they stand. */
  lemma {:induction false} HexBack(s: string, i: nat, v: nat, digits: nat)
    requires i + digits <= |s| && s[i..i + digits] == HexText(v, digits) && v < Pow16(digits)
    ensures HexAt(s, i, digits) == v
    decreases digits
  {
    if digits > 0 {
      var t := HexText(v, digits);
      assert s[i..i + digits][..digits - 1] == s[i..i + digits - 1];
      assert t[..digits - 1] == HexText(v / 16, digits - 1);
      HexBack(s, i, v / 16, digits - 1);
      DigitBack(v % 16);
      assert s[i + digits - 1] == t[digits - 1];
    }
  }

  lemma {:induction false} HexClean(v: nat, digits: nat)
    ensures forall c | c in HexText(v, digits) ::
              c !in [NUL, '\t', ' ', '#', '\n', '\r', 'C', 'S'] && !('A' <= c <= 'Z')
  {
    if digits > 0 {
      HexClean(v / 16, digits - 1);
      DigitBack(v % 16);
    }
  }
}
