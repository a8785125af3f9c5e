/** What `\u` escapes become: the bytes are those of section 3 of RFC 3629, and pairs of
    surrogates stand for the code point of section 7 of RFC 8259 under a condition. */
module JsonUnicode {
  import opened Wrappers
  import opened JsonGrammar
  import Hex

  predicate IsSurrogate(u: nat) {
    0xD800 <= u < 0xE000
  }

  predicate IsTail(c: char) {
    0x80 <= c as int < 0xC0
  }

  function TailBits(c: char): int
    requires IsTail(c)
  {
    c as int - 0x80
  }

  /** The code point of a sequence of bytes, by the table of RFC 3629: neither longer than
      needed, nor a surrogate, nor beyond the last code point. */
  function CodePoint(s: string): Option<nat> {
    var bits :=
      if s == "" then -1
      else
        var lead := s[0] as int;
        if |s| == 1 && lead < 0x80 then lead
        else if |s| == 2 && 0xC0 <= lead < 0xE0 && IsTail(s[1]) then
          (lead - 0xC0) * 0x40 + TailBits(s[1])
        else if |s| == 3 && 0xE0 <= lead < 0xF0 && IsTail(s[1]) && IsTail(s[2]) then
          ((lead - 0xE0) * 0x40 + TailBits(s[1])) * 0x40 + TailBits(s[2])
        else if |s| == 4 && 0xF0 <= lead < 0xF8 && IsTail(s[1]) && IsTail(s[2]) && IsTail(s[3]) then
          (((lead - 0xF0) * 0x40 + TailBits(s[1])) * 0x40 + TailBits(s[2])) * 0x40 + TailBits(s[3])
        else -1;
    var least := if |s| <= 1 then 0 else if |s| == 2 then 0x80 else if |s| == 3 then 0x800 else 0x10000;
    if least <= bits <= 0x10FFFF && !IsSurrogate(bits) then Some(bits) else None
  }

  lemma TwoBytes(u: nat)
    requires 0x7F < u <= 0x7FF
    ensures CodePoint(Utf8(u)) == Some(u)
  {
    var s := Utf8(u);
    assert s[0] as int == 0xC0 + u / 0x40 && s[1] as int == 0x80 + u % 0x40;
  }

  lemma ThreeBytes(u: nat)
    requires 0x7FF < u <= 0xFFFF && !IsSurrogate(u)
    ensures CodePoint(Utf8(u)) == Some(u)
  {
    var s, v := Utf8(u), u / 0x40;
    assert u / 0x1000 == v / 0x40;
    assert s[0] as int == 0xE0 + v / 0x40 && s[1] as int == 0x80 + v % 0x40 && s[2] as int == 0x80 + u % 0x40;
  }

  lemma FourBytes(u: nat)
    requires 0xFFFF < u <= 0xFFFFF
    ensures CodePoint(Utf8(u)) == Some(u)
  {
    var s, v, w := Utf8(u), u / 0x40, u / 0x1000;
    assert w == v / 0x40 && u / 0x40000 == w / 0x40;
    assert s[0] as int == 0xF0 + w / 0x40 && s[1] as int == 0x80 + w % 0x40;
    assert s[2] as int == 0x80 + v % 0x40 && s[3] as int == 0x80 + u % 0x40;
  }

  /** The bytes decode to the code point they were made of. */
  lemma Utf8Decodes(u: nat)
    requires u <= 0xFFFFF && !IsSurrogate(u)
    ensures CodePoint(Utf8(u)) == Some(u)
  {
    if 0x7F < u <= 0x7FF {
      TwoBytes(u);
    } else if 0x7FF < u <= 0xFFFF {
      ThreeBytes(u);
    } else if u > 0xFFFF {
      FourBytes(u);
    }
  }

  /** The code point that a pair of surrogates stands for. */
  function PairPoint(high: nat, low: nat): int
    requires 0xD800 <= high < 0xDC00 <= low < 0xE000
  {
    0x10000 + (high - 0xD800) * 0x400 + (low - 0xDC00)
  }

  /** Four digits are the number that they print, in capital letters as well. */
  lemma FourDigits(t: string, i: nat, v: nat)
    requires v < 0x1_0000 && i + 4 <= |t|
    requires forall k | 0 <= k < 4 :: t[i + k] in [Hex.HexText(v, 4)[k], Capital(Hex.HexText(v, 4)[k])]
    ensures Hex4(t, i) == Some(v)
  {
    hide HexValue, Hex.HexDigit, Hex.HexText, Capital;
    var c, b, a := v / 16, v / 16 / 16, v / 16 / 16 / 16;
    FourPlaces(v);
    var x := Hex.HexText(v, 4);
    assert x[0] == Hex.HexDigit(a) && x[1] == Hex.HexDigit(b % 16);
    assert x[2] == Hex.HexDigit(c % 16) && x[3] == Hex.HexDigit(v % 16);
    DigitRead(t[i + 0], a);
    DigitRead(t[i + 1], b % 16);
    DigitRead(t[i + 2], c % 16);
    DigitRead(t[i + 3], v % 16);
    assert v == a * 0x1000 + b % 16 * 0x100 + c % 16 * 0x10 + v % 16;
  }

  lemma DigitRead(c: char, d: nat)
    requires d < 16 && c in [Hex.HexDigit(d), Capital(Hex.HexDigit(d))]
    ensures HexValue(c) == Some(d)
  {
    OneDigit(d);
    hide HexValue, Hex.HexDigit, Capital;
  }

  function Capital(c: char): char {
    if 'a' <= c <= 'f' then (c as int - 'a' as int + 'A' as int) as char else c
  }

  lemma OneDigit(d: nat)
    requires d < 16
    ensures HexValue(Hex.HexDigit(d)) == Some(d) && HexValue(Capital(Hex.HexDigit(d))) == Some(d)
  {
  }

  lemma FourPlaces(v: nat)
    requires v < 0x1_0000
    ensures v / 16 / 16 / 16 < 16
    ensures Hex.HexText(v, 4)
         == [Hex.HexDigit(v / 16 / 16 / 16), Hex.HexDigit(v / 16 / 16 % 16), Hex.HexDigit(v / 16 % 16),
             Hex.HexDigit(v % 16)]
  {
    hide Hex.HexDigit;
    var c, b, a := v / 16, v / 16 / 16, v / 16 / 16 / 16;
    assert Hex.HexText(a, 1) == Hex.HexText(a / 16, 0) + [Hex.HexDigit(a % 16)] == [Hex.HexDigit(a)];
    assert Hex.HexText(b, 2) == Hex.HexText(a, 1) + [Hex.HexDigit(b % 16)];
    assert Hex.HexText(c, 3) == Hex.HexText(b, 2) + [Hex.HexDigit(c % 16)];
  }

  /** The code is right about a pair exactly when bit 6 of the first half is clear; otherwise what it
      gives is too small by 0x10000. */
  lemma PairExact(high: nat, low: nat)
    requires 0xD800 <= high < 0xDC00 <= low < 0xE000
    ensures PairValue(high, low) == PairPoint(high, low) <==> high / 0x40 % 2 == 0
    ensures high / 0x40 % 2 == 1 ==> PairValue(high, low) == PairPoint(high, low) - 0x1_0000
  {
    var x := (high - 0xD800) * 0x400 + (low - 0xDC00);
    assert high % 0x400 == high - 0xD800 && low % 0x400 == low - 0xDC00;
    assert x / 0x10000 == (high - 0xD800) / 0x40;
    assert high / 0x40 == (high - 0xD800) / 0x40 + 0x360;
  }

  /** The pair of U+20000 becomes U+10000. */
  lemma PairWrong()
    ensures PairPoint(0xD840, 0xDC00) == 0x20000 && PairValue(0xD840, 0xDC00) == 0x10000
  {
  }

  /** An escape adds the bytes of one code point: that of its four digits, or of a pair,
      with bit 16 set in any case. */
  lemma EscapeDecodes(t: string, i: nat)
    requires At(t, i) == 'u' && Escape(t, i).Ok?
    ensures var u, r := Hex4(t, i + 1), Escape(t, i);
            && u.Some?
            && if !IsSurrogate(u.value) then
                 CodePoint(r.value) == Some(u.value) && r.pos == i + 5
               else
                 && Hex4(t, i + 7).Some? && r.pos == i + 11
                 && CodePoint(r.value) == Some(PairValue(u.value, Hex4(t, i + 7).value))
  {
    Utf8Decodes(UnicodeEscape(t, i).value);
  }
}
