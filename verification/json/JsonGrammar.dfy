/** JSON values, and the text grammar that the two-pass parser accepts.

    The grammar is a recursive-descent definition, independent of the flags and
    the stack of the machine in JsonParser. It is lenient in the ways the source
    is: trailing commas, a lone minus sign, raw control characters in strings,
    optional comments. JsonStandard says which texts of RFC 8259 it refuses. A
    character is one byte; the end of the text reads as NUL. */
module JsonGrammar {
  import opened Wrappers
  import Hex

  /** A JSON value. A `Double` is what %g prints of the number; the number itself is not
      modelled, and nothing is known of one that was read. An object is a list of names
      beside a list of values, in entry order. */
  datatype Json =
    | Null
    | Bool(b: bool)
    | Int(n: int)
    | Double(g: string)
    | Str(s: string)
    | Arr(items: seq<Json>)
    | Obj(names: seq<string>, items: seq<Json>)

  datatype Parsed<+T> = Fail | Ok(value: T, pos: nat)

  /** A double that was read. */
  const DOUBLE := Double("")

  const NUL: char := '\0'
  const BACKSPACE: char := '\U{8}'
  const FORMFEED: char := '\U{C}'

  /** Largest length that passes the overflow checks: UINT_MAX - 8. */
  const LENGTH_MAX := 0xFFFF_FFF7
  const INT_MAX := 0x7FFF_FFFF_FFFF_FFFF

  function At(t: string, i: int): char {
    if 0 <= i < |t| then t[i] else NUL
  }

  predicate IsSpace(b: char) {
    b == ' ' || b == '\t' || b == '\r' || b == '\n'
  }

  predicate IsDigit(b: char) {
    '0' <= b <= '9'
  }

  function DigitValue(b: char): (d: nat)
    requires IsDigit(b)
    ensures d <= 9
  {
    b as int - '0' as int
  }

  /** Characters that pass 2 skips when it meets a number. */
  predicate IsNumberChar(b: char) {
    IsDigit(b) || b == '+' || b == '-' || b == 'e' || b == 'E' || b == '.'
  }

  // ---------------------------------------------------------------- white space

  /** First position at or after i that ends a line comment. */
  function LineEnd(t: string, i: nat): (k: nat)
    requires i <= |t|
    ensures i <= k <= |t|
    decreases |t| - i
  {
    var b := At(t, i);
    if b == '\r' || b == '\n' || b == NUL then i else LineEnd(t, i + 1)
  }

  /** Position after the end of a block comment whose text starts at i. */
  function BlockEnd(t: string, i: nat): (r: Option<nat>)
    requires i <= |t|
    ensures r.Some? ==> i < r.value <= |t|
    decreases |t| - i
  {
    var b := At(t, i);
    if b == NUL then None
    else if b == '*' && i + 1 < |t| && t[i + 1] == '/' then Some(i + 2)
    else BlockEnd(t, i + 1)
  }

  /** Position of the next character that is neither white space nor comment. */
  function Skip(t: string, comments: bool, i: nat): (r: Option<nat>)
    requires i <= |t|
    ensures r.Some? ==> i <= r.value <= |t|
    decreases |t| - i
  {
    var b := At(t, i);
    if IsSpace(b) then Skip(t, comments, i + 1)
    else if comments && b == '/' then
      if i + 1 >= |t| then None
      else if t[i + 1] == '/' then Skip(t, comments, LineEnd(t, i + 2))
      else if t[i + 1] == '*' then
        var e := BlockEnd(t, i + 2);
        if e.None? then None else Skip(t, comments, e.value)
      else None
    else Some(i)
  }

  // -------------------------------------------------------------------- strings

  /** The value of a hexadecimal digit, None for any other character. */
  function HexValue(b: char): (r: Option<nat>)
    ensures r.Some? ==> r.value <= 15
  {
    var d := Hex.Digit(b);
    if d < 0 then None else Some(d)
  }

  /** Four hexadecimal digits from position i. */
  function Hex4(t: string, i: nat): (r: Option<nat>)
    ensures r.Some? ==> r.value <= 0xFFFF
    ensures r.Some? ==> i + 4 <= |t|
  {
    var h1 := HexValue(At(t, i));
    var h2 := HexValue(At(t, i + 1));
    var h3 := HexValue(At(t, i + 2));
    var h4 := HexValue(At(t, i + 3));
    if h1.None? || h2.None? || h3.None? || h4.None? then None
    else Some(h1.value * 0x1000 + h2.value * 0x100 + h3.value * 0x10 + h4.value)
  }

  /** The code point of a pair: bit 16 is set with a bitwise or, so it is not
      added when the pair already carries it. */
  function PairValue(u: nat, u2: nat): (r: nat)
    ensures 0x10000 <= r <= 0xFFFFF
  {
    var x := (u % 0x400) * 0x400 + u2 % 0x400;
    if (x / 0x10000) % 2 == 1 then x else x + 0x10000
  }

  /** The UTF-8 bytes of a code point (RFC 3629, section 3). */
  function Utf8(u: nat): (r: string)
    requires u <= 0xFFFFF
    ensures |r| == Utf8Length(u)
  {
    if u <= 0x7F then [u as char]
    else if u <= 0x7FF then [(0xC0 + u / 0x40) as char, (0x80 + u % 0x40) as char]
    else if u <= 0xFFFF then
      [(0xE0 + u / 0x1000) as char, (0x80 + u / 0x40 % 0x40) as char, (0x80 + u % 0x40) as char]
    else
      [(0xF0 + u / 0x40000) as char, (0x80 + u / 0x1000 % 0x40) as char,
       (0x80 + u / 0x40 % 0x40) as char, (0x80 + u % 0x40) as char]
  }

  function Utf8Length(u: nat): nat {
    if u <= 0x7F then 1 else if u <= 0x7FF then 2 else if u <= 0xFFFF then 3 else 4
  }

  /** A `\u` escape whose `u` is at position i: the code point and the position after it. */
  function UnicodeEscape(t: string, i: nat): (r: Parsed<nat>)
    ensures r.Ok? ==> i < r.pos <= |t| && r.value <= 0xFFFFF
  {
    var u := Hex4(t, i + 1);
    if |t| - i <= 4 || u.None? then Fail
    else if 0xD800 <= u.value < 0xE000 then
      var u2 := Hex4(t, i + 7);
      if |t| - (i + 4) <= 6 || t[i + 5] != '\\' || t[i + 6] != 'u' || u2.None? then Fail
      else Ok(PairValue(u.value, u2.value), i + 11)
    else Ok(u.value, i + 5)
  }

  /** The escape whose character after the backslash is at position i. */
  function Escape(t: string, i: nat): (r: Parsed<string>)
    ensures r.Ok? ==> i < r.pos <= |t| && |r.value| <= 4
  {
    var b := At(t, i);
    if b == NUL then Fail
    else if b == 'b' then Ok([BACKSPACE], i + 1)
    else if b == 'f' then Ok([FORMFEED], i + 1)
    else if b == 'n' then Ok(['\n'], i + 1)
    else if b == 'r' then Ok(['\r'], i + 1)
    else if b == 't' then Ok(['\t'], i + 1)
    else if b == 'u' then
      var u := UnicodeEscape(t, i);
      if u.Fail? then Fail else Ok(Utf8(u.value), u.pos)
    else Ok([b], i + 1)
  }

  /** The rest of a string from position i; n characters of it are already read. */
  function StringRest(t: string, i: nat, n: nat): (r: Parsed<string>)
    requires i <= |t|
    ensures r.Ok? ==> i < r.pos <= |t|
    decreases |t| - i
  {
    var b := At(t, i);
    if b == NUL || n > LENGTH_MAX then Fail
    else if b == '\\' then
      var e := Escape(t, i + 1);
      if e.Fail? then Fail
      else
        var rest := StringRest(t, e.pos, n + |e.value|);
        if rest.Fail? then Fail else Ok(e.value + rest.value, rest.pos)
    else if b == '"' then Ok("", i + 1)
    else
      var rest := StringRest(t, i + 1, n + 1);
      if rest.Fail? then Fail else Ok([b] + rest.value, rest.pos)
  }

  // -------------------------------------------------------------------- numbers

  /** Whether value * 10 + d would exceed the 64-bit maximum. */
  predicate WouldOverflow(value: nat, d: nat)
    requires d <= 9
  {
    (INT_MAX - d) / 10 < value
  }

  /** A number from its first character. */
  function Number(t: string, comments: bool, i: nat): (r: Parsed<Json>)
    requires i < |t| && (IsDigit(t[i]) || t[i] == '-')
    ensures r.Ok? ==> i < r.pos <= |t|
    ensures r.Ok? ==> r.value.Int? || r.value.Double?
  {
    if t[i] == '-' then IntegerRest(t, comments, i + 1, true, 0, 0, false)
    else IntegerRest(t, comments, i, false, 0, 0, false)
  }

  /** The rest of the integer part: `digits` digits read with value `val`;
      `zero` says that the first of them was a zero. */
  function IntegerRest(t: string, comments: bool, i: nat, neg: bool, val: nat, digits: nat,
                       zero: bool): (r: Parsed<Json>)
    requires i <= |t|
    ensures r.Ok? ==> i <= r.pos <= |t|
    ensures r.Ok? && IsDigit(At(t, i)) ==> i < r.pos
    ensures r.Ok? ==> r.value.Int? || r.value.Double?
    decreases |t| - i, 1
  {
    var b := At(t, i);
    if IsDigit(b) then
      if zero then Fail
      else if WouldOverflow(val, DigitValue(b)) then FractionRest(t, comments, i, digits)
      else IntegerRest(t, comments, i + 1, neg, val * 10 + DigitValue(b), digits + 1, digits == 0 && b == '0')
    else if comments && b == '/' then Fail
    else if b == '.' then
      if digits == 0 then Fail else FractionRest(t, comments, i + 1, 0)
    else if b == 'e' || b == 'E' then ExponentRest(t, comments, i + 1, false, 0)
    else Ok(Int(if neg then -(val as int) else val), i)
  }

  /** The rest of a double before its exponent. */
  function FractionRest(t: string, comments: bool, i: nat, digits: nat): (r: Parsed<Json>)
    requires i <= |t|
    ensures r.Ok? ==> i <= r.pos <= |t|
    ensures r.Ok? && IsDigit(At(t, i)) ==> i < r.pos
    ensures r.Ok? ==> r.value.Double?
    decreases |t| - i, 0
  {
    var b := At(t, i);
    if IsDigit(b) then FractionRest(t, comments, i + 1, digits + 1)
    else if (comments && b == '/') || digits == 0 then Fail
    else if b == 'e' || b == 'E' then ExponentRest(t, comments, i + 1, false, 0)
    else Ok(DOUBLE, i)
  }

  /** The rest of an exponent. */
  function ExponentRest(t: string, comments: bool, i: nat, gotSign: bool, digits: nat): (r: Parsed<Json>)
    requires i <= |t|
    ensures r.Ok? ==> i <= r.pos <= |t|
    ensures r.Ok? ==> r.value.Double?
    decreases |t| - i
  {
    var b := At(t, i);
    if IsDigit(b) then ExponentRest(t, comments, i + 1, true, digits + 1)
    else if comments && b == '/' then Fail
    else if (b == '+' || b == '-') && !gotSign then ExponentRest(t, comments, i + 1, true, digits)
    else if digits == 0 then Fail
    else Ok(DOUBLE, i)
  }

  // --------------------------------------------------------------------- values

  /** A value whose first character is at position i. */
  function Value(t: string, comments: bool, i: nat): (r: Parsed<Json>)
    requires i <= |t|
    ensures r.Ok? ==> i < r.pos <= |t|
    decreases |t| - i, 0
  {
    var b := At(t, i);
    if b == '{' then Object(t, comments, i + 1, [], [], false)
    else if b == '[' then Array(t, comments, i + 1, [], false)
    else if b == '"' then
      var s := StringRest(t, i + 1, 0);
      if s.Fail? then Fail else Ok(Str(s.value), s.pos)
    else if b == 't' then Literal(t, i, "true", Bool(true))
    else if b == 'f' then Literal(t, i, "false", Bool(false))
    else if b == 'n' then Literal(t, i, "null", Null)
    else if IsDigit(b) || b == '-' then Number(t, comments, i)
    else Fail
  }

  function Literal(t: string, i: nat, word: string, v: Json): (r: Parsed<Json>)
    requires |word| > 0
    ensures r.Ok? ==> i < r.pos <= |t|
  {
    if i + |word| <= |t| && t[i..i + |word|] == word then Ok(v, i + |word|) else Fail
  }

  /** The rest of an array: `done` holds the elements read; a comma may be due. */
  function Array(t: string, comments: bool, i: nat, done: seq<Json>, needComma: bool): (r: Parsed<Json>)
    requires i <= |t|
    ensures r.Ok? ==> i < r.pos <= |t|
    ensures r.Ok? ==> r.value.Arr? && done <= r.value.items
    decreases |t| - i, 1
  {
    var k := Skip(t, comments, i);
    if k.None? then Fail
    else if At(t, k.value) == ']' then Ok(Arr(done), k.value + 1)
    else if needComma then
      if At(t, k.value) == ',' then Array(t, comments, k.value + 1, done, false) else Fail
    else
      var v := Value(t, comments, k.value);
      if v.Fail? || |done| >= LENGTH_MAX then Fail
      else Array(t, comments, v.pos, done + [v.value], true)
  }

  /** The rest of an object: names and values read so far; a comma may be due. */
  function Object(t: string, comments: bool, i: nat, names: seq<string>, done: seq<Json>,
                  needComma: bool): (r: Parsed<Json>)
    requires i <= |t| && |names| == |done|
    ensures r.Ok? ==> i < r.pos <= |t|
    ensures r.Ok? ==> r.value.Obj? && |r.value.names| == |r.value.items|
    ensures r.Ok? ==> names <= r.value.names && done <= r.value.items
    decreases |t| - i, 3
  {
    var k := Skip(t, comments, i);
    if k.None? then Fail
    else if At(t, k.value) == '}' then Ok(Obj(names, done), k.value + 1)
    else if At(t, k.value) == ',' && needComma then Object(t, comments, k.value + 1, names, done, false)
    else if At(t, k.value) == '"' && !needComma then
      var s := StringRest(t, k.value + 1, 0);
      if s.Fail? then Fail else Colon(t, comments, s.pos, names + [s.value], done)
    else Fail
  }

  /** The part of an object after the last of `names`: a colon, then its value. */
  function Colon(t: string, comments: bool, i: nat, names: seq<string>, done: seq<Json>): (r: Parsed<Json>)
    requires i <= |t| && |names| == |done| + 1
    ensures r.Ok? ==> i < r.pos <= |t|
    ensures r.Ok? ==> r.value.Obj? && |r.value.names| == |r.value.items|
    ensures r.Ok? ==> names <= r.value.names && done < r.value.items
    decreases |t| - i, 2
  {
    var k := Skip(t, comments, i);
    if k.None? || At(t, k.value) != ':' then Fail
    else Member(t, comments, k.value + 1, names, done)
  }

  /** The value of the last of `names`, then the rest of the object. */
  function Member(t: string, comments: bool, i: nat, names: seq<string>, done: seq<Json>): (r: Parsed<Json>)
    requires i <= |t| && |names| == |done| + 1
    ensures r.Ok? ==> i < r.pos <= |t|
    ensures r.Ok? ==> r.value.Obj? && |r.value.names| == |r.value.items|
    ensures r.Ok? ==> names <= r.value.names && done < r.value.items
    decreases |t| - i, 1
  {
    var k := Skip(t, comments, i);
    if k.None? then Fail
    else
      var v := Value(t, comments, k.value);
      if v.Fail? || |done| >= LENGTH_MAX then Fail
      else Object(t, comments, v.pos, names, done + [v.value], true)
  }

  /** Only white space, comments and the end of the text follow position i. */
  predicate Ends(t: string, comments: bool, i: nat)
    requires i <= |t|
  {
    var k := Skip(t, comments, i);
    k.Some? && At(t, k.value) == NUL
  }

  /** A whole text: a value, then nothing. */
  function Document(t: string, comments: bool): (r: Option<Json>) {
    var k := Skip(t, comments, 0);
    if k.None? then None
    else
      var v := Value(t, comments, k.value);
      if v.Ok? && Ends(t, comments, v.pos) then Some(v.value) else None
  }

  /** The text after a UTF-8 byte order mark, if there is one. */
  function SkipMark(t: string): string {
    if |t| >= 3 && t[0] == 0xEF as char && t[1] == 0xBB as char && t[2] == 0xBF as char then t[3..] else t
  }
}
