/** The strings and numbers of RFC 8259 in pieces, and what the parser makes of them: nothing for
    a surrogate escape without a second escape behind it and for a fraction behind an integer
    part beyond INT64_MAX. */
module JsonScalars {
  import opened Wrappers
  import opened Parts
  import opened JsonGrammar
  import opened JsonPrinter
  import opened JsonUnicode

  // -------------------------------------------------------------------- strings

  /** A character of a string: as it is, behind a backslash, or as four digits. */
  datatype Unit = Plain(c: char) | Short(c: char) | Code(hex: string)

  predicate UnitOk(u: Unit) {
    match u
    case Plain(c) => ' ' <= c && c != '"' && c != '\\'
    case Short(c) => c in "\"\\/bfnrt"
    case Code(hex) => |hex| == 4 && forall k | 0 <= k < 4 :: HexValue(hex[k]).Some?
  }

  /** The units of a string, up to its closing quote. */
  datatype Units = Close | More(first: Unit, rest: Units)

  predicate UnitsOk(units: Units) {
    units.Close? || (UnitOk(units.first) && UnitsOk(units.rest))
  }

  function UnitText(u: Unit): string {
    match u
    case Plain(c) => [c]
    case Short(c) => ['\\', c]
    case Code(hex) => "\\u" + hex
  }

  function Closed(units: Units): string {
    match units
    case Close => "\""
    case More(first, rest) => UnitText(first) + Closed(rest)
  }

  function ShortValue(c: char): char {
    match c
    case 'b' => '\U{8}'
    case 'f' => '\U{C}'
    case 'n' => '\n'
    case 'r' => '\r'
    case 't' => '\t'
    case _ => c
  }

  function CodeOf(hex: string): (r: nat)
    requires UnitOk(Code(hex))
    ensures r <= 0xFFFF
  {
    Hex4(hex, 0).value
  }

  /** The first piece of a string, and the units behind it; nothing for a surrogate that no
      other escape follows. */
  function Piece(units: Units): (r: Option<(string, Units)>)
    requires units.More? && UnitsOk(units)
    ensures r.Some? ==> UnitsOk(r.value.1) && r.value.1 < units
  {
    match units.first
    case Plain(c) => Some(([c], units.rest))
    case Short(c) => Some(([ShortValue(c)], units.rest))
    case Code(hex) =>
      if !IsSurrogate(CodeOf(hex)) then Some((Utf8(CodeOf(hex)), units.rest))
      else if StartsWithCode(units.rest) then
        assert UnitsOk(units.rest) && units.rest.first == Code(units.rest.first.hex);
        Some((Utf8(PairValue(CodeOf(hex), CodeOf(units.rest.first.hex))), units.rest.rest))
      else None
  }

  predicate StartsWithCode(units: Units) {
    units.More? && units.first.Code?
  }

  function StringOf(units: Units): Option<string>
    requires UnitsOk(units)
  {
    if units.Close? then Some("")
    else
      var p := Piece(units);
      if p.None? then None
      else
        var rest := StringOf(p.value.1);
        if rest.None? then None else Some(p.value.0 + rest.value)
  }

  /** What reading a string gives, n characters of it being read before. */
  function StringResult(units: Units, n: nat, end: nat): Parsed<string>
    requires UnitsOk(units)
  {
    var s := StringOf(units);
    if s.Some? && n + |s.value| <= LENGTH_MAX then Ok(s.value, end) else Fail
  }

  lemma ClosedSplit(t: string, i: nat, units: Units)
    requires units.More? && Has(t, Closed(units), i)
    ensures Has(t, UnitText(units.first), i) && Has(t, Closed(units.rest), i + |UnitText(units.first)|)
    ensures |Closed(units)| == |UnitText(units.first)| + |Closed(units.rest)|
  {
    hide UnitText, Has;
    HasPart(t, i, UnitText(units.first), Closed(units.rest));
  }

  /** The text goes on, at least with the quote. */
  lemma ClosedInside(t: string, i: nat, units: Units)
    requires Has(t, Closed(units), i)
    ensures i < i + |Closed(units)| <= |t|
  {
    hide UnitText;
  }

  lemma HexBack(t: string, i: nat, hex: string)
    requires UnitOk(Code(hex)) && Has(t, hex, i)
    ensures Hex4(t, i) == Some(CodeOf(hex))
  {
    hide HexValue;
    assert t[i + 0] == hex[0] && t[i + 1] == hex[1] && t[i + 2] == hex[2] && t[i + 3] == hex[3];
  }

  /** Where the digits of a coded unit stand. */
  lemma CodeThere(t: string, i: nat, hex: string)
    requires UnitOk(Code(hex)) && Has(t, UnitText(Code(hex)), i)
    ensures i + 6 <= |t| && t[i] == '\\' && t[i + 1] == 'u' && Hex4(t, i + 2) == Some(CodeOf(hex))
    ensures |UnitText(Code(hex))| == 6
  {
    hide CodeOf, Hex4;
    HasPart(t, i, "\\u", hex);
    HasChar(t, "\\u", i, 0);
    HasChar(t, "\\u", i, 1);
    HexBack(t, i + 2, hex);
  }

  /** How the next unit, or the quote, begins. */
  lemma UnitThere(t: string, i: nat, units: Units)
    requires UnitsOk(units) && Has(t, Closed(units), i)
    ensures i < |t|
    ensures (t[i] == '\\' && At(t, i + 1) == 'u') <==> StartsWithCode(units)
    ensures units.Close? ==> t[i] == '"'
    ensures units.More? && units.first.Plain? ==> t[i] == units.first.c
    ensures units.More? && units.first.Short? ==> t[i] == '\\' && At(t, i + 1) == units.first.c
  {
    if units.Close? {
      HasChar(t, "\"", i, 0);
    } else {
      ClosedSplit(t, i, units);
      hide Closed, Has, Hex4, HexValue, CodeOf;
      var text := UnitText(units.first);
      HasChar(t, text, i, 0);
      if !units.first.Plain? {
        HasChar(t, text, i, 1);
      }
    }
  }

  /** The escape of four digits, with the one behind it if it is a surrogate. */
  lemma CodeBack(t: string, i: nat, hex: string, rest: Units)
    requires UnitOk(Code(hex)) && UnitsOk(rest) && Has(t, UnitText(Code(hex)), i) && Has(t, Closed(rest), i + 6)
    ensures At(t, i) == '\\' && At(t, i + 1) == 'u'
    ensures UnicodeEscape(t, i + 1)
         == if !IsSurrogate(CodeOf(hex)) then Ok(CodeOf(hex), i + 6)
            else if StartsWithCode(rest) then Ok(PairValue(CodeOf(hex), CodeOf(rest.first.hex)), i + 12)
            else Fail
  {
    hide Hex4, CodeOf, PairValue, Closed, Has, UnitText, UnicodeEscape;
    CodeThere(t, i, hex);
    UnitThere(t, i + 6, rest);
    ClosedInside(t, i + 6, rest);
    if StartsWithCode(rest) {
      assert rest.first == Code(rest.first.hex);
      ClosedSplit(t, i + 6, rest);
      CodeThere(t, i + 6, rest.first.hex);
      ClosedInside(t, i + 12, rest.rest);
      EscapeIs(t, i + 1, CodeOf(hex), true, CodeOf(rest.first.hex));
    } else {
      EscapeIs(t, i + 1, CodeOf(hex), false, 0);
    }
  }

  lemma EscapeIs(t: string, j: nat, u: nat, pair: bool, u2: nat)
    requires j + 5 < |t| && Hex4(t, j + 1) == Some(u)
    requires pair ==> j + 11 < |t| && Hex4(t, j + 7) == Some(u2)
    requires pair <==> At(t, j + 5) == '\\' && At(t, j + 6) == 'u'
    ensures UnicodeEscape(t, j)
         == if !IsSurrogate(u) then Ok(u, j + 5) else if pair then Ok(PairValue(u, u2), j + 11) else Fail
  {
    hide Hex4, PairValue;
  }

  /** What reading the first piece leads to. */
  predicate Steps(t: string, i: nat, n: nat, piece: string, k: nat)
    requires i <= |t| && k <= |t|
  {
    var rest := StringRest(t, k, n + |piece|);
    StringRest(t, i, n) == if n > LENGTH_MAX || rest.Fail? then Fail else Ok(piece + rest.value, rest.pos)
  }

  lemma SimpleBack(t: string, i: nat, units: Units, n: nat)
    requires units.More? && !units.first.Code? && UnitsOk(units) && Has(t, Closed(units), i)
    ensures var k := i + |UnitText(units.first)|; k < |t| && Steps(t, i, n, Piece(units).value.0, k)
  {
    UnitThere(t, i, units);
    ClosedSplit(t, i, units);
    ClosedInside(t, i + |UnitText(units.first)|, units.rest);
    hide Closed, Has, UnitsOk, UnicodeEscape, Utf8;
    if units.first.Short? {
      assert Escape(t, i + 1) == Ok([ShortValue(units.first.c)], i + 2);
    }
  }

  /** An escape is one step, too. */
  lemma EscapeSteps(t: string, i: nat, n: nat, e: Parsed<nat>)
    requires At(t, i) == '\\' && At(t, i + 1) == 'u' && UnicodeEscape(t, i + 1) == e
    ensures i < |t|
    ensures if e.Ok? then e.pos <= |t| && Steps(t, i, n, Utf8(e.value), e.pos) else StringRest(t, i, n) == Fail
  {
    hide UnicodeEscape, Utf8;
  }

  lemma CodeLength(hex: string)
    requires UnitOk(Code(hex))
    ensures |UnitText(Code(hex))| == 6
  {
  }

  lemma PieceIs(units: Units)
    requires StartsWithCode(units) && UnitsOk(units)
    ensures UnitOk(units.first) && units.first == Code(units.first.hex) && UnitsOk(units.rest)
    ensures |Closed(units)| == 6 + |Closed(units.rest)|
    ensures StartsWithCode(units.rest) ==>
              && UnitOk(units.rest.first) && UnitsOk(units.rest.rest) && units.rest.first == Code(units.rest.first.hex)
    ensures Piece(units)
         == if !IsSurrogate(CodeOf(units.first.hex)) then Some((Utf8(CodeOf(units.first.hex)), units.rest))
            else if StartsWithCode(units.rest) then
              Some((Utf8(PairValue(CodeOf(units.first.hex), CodeOf(units.rest.first.hex))), units.rest.rest))
            else None
  {
    hide CodeOf, Utf8, PairValue;
  }

  lemma EscapedBack(t: string, i: nat, units: Units, n: nat)
    requires StartsWithCode(units) && UnitsOk(units) && Has(t, Closed(units), i)
    ensures var p := Piece(units);
            && i < |t|
            && if p.None? then StringRest(t, i, n) == Fail
               else
                 var k := i + |Closed(units)| - |Closed(p.value.1)|;
                 i < k < |t| && Has(t, Closed(p.value.1), k) && Steps(t, i, n, p.value.0, k)
  {
    hide Closed, Has, UnicodeEscape, CodeOf, Utf8, PairValue;
    hide Steps, StringRest, Piece, UnitsOk, UnitOk, UnitText, IsSurrogate;
    PieceIs(units);
    CodeLength(units.first.hex);
    ClosedSplit(t, i, units);
    ClosedInside(t, i + 6, units.rest);
    CodeBack(t, i, units.first.hex, units.rest);
    if StartsWithCode(units.rest) {
      CodeLength(units.rest.first.hex);
      ClosedSplit(t, i + 6, units.rest);
      ClosedInside(t, i + 12, units.rest.rest);
    }
    EscapeSteps(t, i, n, UnicodeEscape(t, i + 1));
  }

  /** One piece is read as one step. */
  lemma PieceBack(t: string, i: nat, units: Units, n: nat)
    requires units.More? && UnitsOk(units) && Has(t, Closed(units), i)
    ensures var p := Piece(units);
            && i < |t|
            && if p.None? then StringRest(t, i, n) == Fail
               else
                 var k := i + |Closed(units)| - |Closed(p.value.1)|;
                 i < k < |t| && Has(t, Closed(p.value.1), k) && Steps(t, i, n, p.value.0, k)
  {
    hide Closed, Has, Piece, UnitText, StringRest, Steps, UnitOk, UnitsOk;
    if units.first.Code? {
      EscapedBack(t, i, units, n);
    } else {
      SimpleBack(t, i, units, n);
      SimplePiece(t, i, units);
    }
  }

  lemma SimplePiece(t: string, i: nat, units: Units)
    requires units.More? && !units.first.Code? && UnitsOk(units) && Has(t, Closed(units), i)
    ensures Piece(units).Some? && Piece(units).value.1 == units.rest && |UnitText(units.first)| > 0
    ensures |Closed(units)| == |UnitText(units.first)| + |Closed(units.rest)|
    ensures Has(t, Closed(units.rest), i + |UnitText(units.first)|)
  {
    ClosedSplit(t, i, units);
    hide Closed, Has;
  }

  /** Every string of the standard is read, unless a surrogate stands alone or it is too long. */
  lemma {:induction false} StringRead(t: string, i: nat, units: Units, n: nat)
    requires UnitsOk(units) && Has(t, Closed(units), i)
    ensures i < |t| && StringRest(t, i, n) == StringResult(units, n, i + |Closed(units)|)
    decreases units
  {
    hide StringRest, Closed, Has, Piece, StringOf, UnitsOk, StringResult, Steps;
    if units.Close? {
      QuoteRead(t, i, n);
    } else {
      PieceBack(t, i, units, n);
      var p, end := Piece(units), i + |Closed(units)|;
      if p.None? {
        ResultJoined(units, n, end);
      } else {
        var k := end - |Closed(p.value.1)|;
        StringRead(t, k, p.value.1, n + |p.value.0|);
        StepsJoined(t, i, n, units, k, end);
      }
    }
  }

  lemma QuoteRead(t: string, i: nat, n: nat)
    requires Has(t, Closed(Close), i)
    ensures i < |t| && UnitsOk(Close) && StringRest(t, i, n) == StringResult(Close, n, i + |Closed(Close)|)
  {
    UnitThere(t, i, Close);
    hide Has, Escape;
  }

  lemma StepsJoined(t: string, i: nat, n: nat, units: Units, k: nat, end: nat)
    requires units.More? && UnitsOk(units) && Piece(units).Some? && i <= |t| && k <= |t|
    requires Steps(t, i, n, Piece(units).value.0, k)
    requires StringRest(t, k, n + |Piece(units).value.0|)
          == StringResult(Piece(units).value.1, n + |Piece(units).value.0|, end)
    ensures StringRest(t, i, n) == StringResult(units, n, end)
  {
    hide StringRest, Piece, StringOf, UnitsOk, StringResult;
    ResultJoined(units, n, end);
  }

  /** The result for a string, from that for what is behind its first piece. */
  lemma ResultJoined(units: Units, n: nat, end: nat)
    requires units.More? && UnitsOk(units)
    ensures StringResult(units, n, end)
         == if Piece(units).None? then Fail
            else
              var piece, rest := Piece(units).value.0, StringResult(Piece(units).value.1, n + |Piece(units).value.0|,
                                                                    end);
              if n > LENGTH_MAX || rest.Fail? then Fail else Ok(piece + rest.value, rest.pos)
  {
    hide Piece, UnitsOk;
  }

  // -------------------------------------------------------------------- numbers

  datatype Exponent = NoExponent | Exponent(letter: char, sign: string, digits: string)

  predicate AllDigits(s: string) {
    forall k | 0 <= k < |s| :: IsDigit(s[k])
  }

  /** An integer part: no zero in front of other digits. */
  predicate IntOk(whole: string) {
    AllDigits(whole) && whole != "" && (whole[0] == '0' ==> |whole| == 1)
  }

  predicate ExponentOk(e: Exponent) {
    e.Exponent? ==>
      (e.letter == 'e' || e.letter == 'E') && e.sign in ["", "+", "-"] && AllDigits(e.digits) && e.digits != ""
  }

  function FractionText(frac: string): string {
    if frac == "" then "" else "." + frac
  }

  function ExponentText(e: Exponent): string {
    match e
    case NoExponent => ""
    case Exponent(letter, sign, digits) => [letter] + (sign + digits)
  }

  /** The decimal value of the first k digits. */
  function Amount(whole: string, k: nat): nat
    requires k <= |whole| && AllDigits(whole)
  {
    if k == 0 then 0 else Amount(whole, k - 1) * 10 + DigitValue(whole[k - 1])
  }

  /** What a number is read as; nothing for a fraction behind more than INT64_MAX. */
  function NumberOf(neg: bool, whole: string, frac: string, exp: Exponent): Option<Json>
    requires IntOk(whole)
  {
    var n := Amount(whole, |whole|);
    if n > INT_MAX then if frac == "" then Some(DOUBLE) else None
    else if frac == "" && exp.NoExponent? then Some(Int(if neg then -(n as int) else n))
    else Some(DOUBLE)
  }

  /** The scan of an integer part: the value grows, until it is too large; then the digits
      are passed like those of a fraction. */
  lemma {:induction false} IntScanned(t: string, comments: bool, i: nat, neg: bool, whole: string, k: nat)
    requires IntOk(whole) && Has(t, whole, i) && k <= |whole|
    ensures i + |whole| <= |t|
    ensures IntegerRest(t, comments, i, neg, 0, 0, false)
         == if Amount(whole, k) <= INT_MAX then
              IntegerRest(t, comments, i + k, neg, Amount(whole, k), k, k == 1 && whole[0] == '0')
            else FractionRest(t, comments, i + k, k)
    decreases k
  {
    hide FractionRest, ExponentRest, IntegerRest, Amount;
    AmountFirst(whole);
    if k > 0 {
      IntScanned(t, comments, i, neg, whole, k - 1);
      DigitScanned(t, comments, i, neg, whole, k - 1);
    }
  }

  lemma AmountFirst(whole: string)
    requires AllDigits(whole)
    ensures Amount(whole, 0) == 0
  {
  }

  /** One more digit. */
  lemma DigitScanned(t: string, comments: bool, i: nat, neg: bool, whole: string, k: nat)
    requires IntOk(whole) && Has(t, whole, i) && k < |whole|
    ensures i + |whole| <= |t|
    ensures Amount(whole, k) <= INT_MAX ==>
              IntegerRest(t, comments, i + k, neg, Amount(whole, k), k, k == 1 && whole[0] == '0')
              == if Amount(whole, k + 1) <= INT_MAX then
                   IntegerRest(t, comments, i + k + 1, neg, Amount(whole, k + 1), k + 1, k + 1 == 1 && whole[0] == '0')
                 else FractionRest(t, comments, i + k + 1, k + 1)
    ensures Amount(whole, k) > INT_MAX ==>
              Amount(whole, k + 1) > INT_MAX
              && FractionRest(t, comments, i + k, k) == FractionRest(t, comments, i + k + 1, k + 1)
  {
    hide ExponentRest;
    assert t[i + k] == whole[k];
    var n, d := Amount(whole, k), DigitValue(whole[k]);
    assert Amount(whole, k + 1) == n * 10 + d;
    hide Amount;
    assert WouldOverflow(n, d) <==> n * 10 + d > INT_MAX;
  }

  /** The digits of a fraction. */
  lemma {:induction false} FractionScanned(t: string, comments: bool, i: nat, s: string, k: nat, digits: nat)
    requires AllDigits(s) && Has(t, s, i) && k <= |s|
    ensures i + |s| <= |t| && FractionRest(t, comments, i, digits) == FractionRest(t, comments, i + k, digits + k)
    decreases k
  {
    hide ExponentRest, FractionRest;
    if k > 0 {
      FractionScanned(t, comments, i, s, k - 1, digits);
      FractionDigit(t, comments, i, s, k - 1, digits + (k - 1));
    }
  }

  lemma FractionDigit(t: string, comments: bool, i: nat, s: string, k: nat, digits: nat)
    requires AllDigits(s) && Has(t, s, i) && k < |s|
    ensures i + |s| <= |t|
    ensures FractionRest(t, comments, i + k, digits) == FractionRest(t, comments, i + k + 1, digits + 1)
  {
    hide ExponentRest;
    assert t[i + k] == s[k];
  }

  lemma {:induction false} ExponentScanned(t: string, comments: bool, i: nat, s: string, k: nat, gotSign: bool)
    requires AllDigits(s) && Has(t, s, i) && k <= |s|
    ensures i + |s| <= |t|
    ensures ExponentRest(t, comments, i, gotSign, 0) == ExponentRest(t, comments, i + k, k > 0 || gotSign, k)
    decreases k
  {
    hide ExponentRest;
    if k > 0 {
      ExponentScanned(t, comments, i, s, k - 1, gotSign);
      ExponentDigit(t, comments, i, s, k - 1, k - 1 > 0 || gotSign, k - 1);
    }
  }

  lemma ExponentDigit(t: string, comments: bool, i: nat, s: string, k: nat, gotSign: bool, digits: nat)
    requires AllDigits(s) && Has(t, s, i) && k < |s|
    ensures i + |s| <= |t|
    ensures ExponentRest(t, comments, i + k, gotSign, digits) == ExponentRest(t, comments, i + k + 1, true, digits + 1)
  {
    assert t[i + k] == s[k];
  }

  lemma ExponentIs(e: Exponent)
    requires e.Exponent? && ExponentOk(e)
    ensures ExponentText(e) == [e.letter] + (e.sign + e.digits)
    ensures |ExponentText(e)| == 1 + |e.sign| + |e.digits|
    ensures AllDigits(e.digits) && e.digits != "" && (e.sign != "" ==> e.sign[0] in "+-" && |e.sign| == 1)
  {
  }

  /** The exponent is passed, from behind its letter to behind its last digit. */
  lemma ExponentPassed(t: string, comments: bool, i: nat, e: Exponent)
    requires e.Exponent? && ExponentOk(e) && Has(t, ExponentText(e), i)
    ensures i + |ExponentText(e)| <= |t| && t[i] == e.letter && |ExponentText(e)| == 1 + |e.sign| + |e.digits|
    ensures ExponentRest(t, comments, i + 1, false, 0)
         == ExponentRest(t, comments, i + |ExponentText(e)|, true, |e.digits|)
  {
    hide ExponentRest, Has, AllDigits, ExponentText, ExponentOk;
    ExponentIs(e);
    HasPart(t, i, [e.letter], e.sign + e.digits);
    HasChar(t, [e.letter], i, 0);
    HasPart(t, i + 1, e.sign, e.digits);
    var k := i + 1 + |e.sign|;
    if e.sign != "" {
      HasChar(t, e.sign, i + 1, 0);
      SignBack(t, comments, i + 1);
    }
    ExponentScanned(t, comments, k, e.digits, |e.digits|, e.sign != "");
  }

  /** An exponent is read, from behind its letter. */
  lemma ExponentBack(t: string, comments: bool, i: nat, e: Exponent)
    requires e.Exponent? && ExponentOk(e) && Has(t, ExponentText(e), i) && Follows(At(t, i + |ExponentText(e)|))
    ensures i + |ExponentText(e)| <= |t| && t[i] == e.letter && |ExponentText(e)| == 1 + |e.sign| + |e.digits|
    ensures ExponentRest(t, comments, i + 1, false, 0) == Ok(DOUBLE, i + |ExponentText(e)|)
  {
    hide ExponentRest, Has, ExponentText, Follows;
    ExponentIs(e);
    ExponentPassed(t, comments, i, e);
    ExponentEnds(t, comments, i + |ExponentText(e)|, |e.digits|);
  }

  lemma SignBack(t: string, comments: bool, i: nat)
    requires i < |t| && (t[i] == '+' || t[i] == '-')
    ensures ExponentRest(t, comments, i, false, 0) == ExponentRest(t, comments, i + 1, true, 0)
  {
  }

  lemma ExponentEnds(t: string, comments: bool, i: nat, digits: nat)
    requires i <= |t| && Follows(At(t, i)) && digits > 0
    ensures ExponentRest(t, comments, i, true, digits) == Ok(DOUBLE, i)
  {
  }

  /** Reading failed, or stopped at a point or at a slash that is no comment. */
  predicate Stuck(t: string, comments: bool, r: Parsed<Json>) {
    r.Fail? || At(t, r.pos) == '.' || (!comments && At(t, r.pos) == '/')
  }

  /** What follows an integer part that is not too large. */
  lemma TailBack(t: string, comments: bool, i: nat, neg: bool, n: nat, digits: nat, zero: bool, frac: string,
                 e: Exponent)
    requires AllDigits(frac) && ExponentOk(e) && digits > 0
    requires Has(t, FractionText(frac), i) && Has(t, ExponentText(e), i + |FractionText(frac)|)
    requires Follows(At(t, i + |FractionText(frac)| + |ExponentText(e)|))
    ensures i <= |t|
    ensures IntegerRest(t, comments, i, neg, n, digits, zero)
         == Ok(if frac == "" && e.NoExponent? then Int(if neg then -(n as int) else n) else DOUBLE,
               i + |FractionText(frac)| + |ExponentText(e)|)
  {
    hide ExponentRest, FractionRest, AllDigits, Has, ExponentText, ExponentOk, Follows;
    HasInside(t, FractionText(frac), i);
    if frac != "" {
      HasPart(t, i, ".", frac);
      HasChar(t, ".", i, 0);
      PointBack(t, comments, i, neg, n, digits, zero);
      FractionBack(t, comments, i + 1, frac, 0, e);
    } else {
      EndOrExponent(t, comments, i, neg, n, digits, zero, e);
    }
  }

  lemma PointBack(t: string, comments: bool, i: nat, neg: bool, n: nat, digits: nat, zero: bool)
    requires i < |t| && t[i] == '.' && digits > 0
    ensures IntegerRest(t, comments, i, neg, n, digits, zero) == FractionRest(t, comments, i + 1, 0)
  {
    hide FractionRest;
  }

  lemma EndOrExponent(t: string, comments: bool, i: nat, neg: bool, n: nat, digits: nat, zero: bool, e: Exponent)
    requires ExponentOk(e) && Has(t, ExponentText(e), i) && Follows(At(t, i + |ExponentText(e)|)) && i <= |t|
    ensures IntegerRest(t, comments, i, neg, n, digits, zero)
         == Ok(if e.NoExponent? then Int(if neg then -(n as int) else n) else DOUBLE, i + |ExponentText(e)|)
  {
    if e.Exponent? {
      ExponentBack(t, comments, i, e);
    }
    hide ExponentRest, FractionRest, Has, AllDigits;
  }

  /** The rest of a double: some digits, and perhaps an exponent. */
  lemma FractionBack(t: string, comments: bool, i: nat, s: string, digits: nat, e: Exponent)
    requires AllDigits(s) && ExponentOk(e) && digits + |s| > 0
    requires Has(t, s, i) && Has(t, ExponentText(e), i + |s|) && Follows(At(t, i + |s| + |ExponentText(e)|))
    ensures i <= |t| && FractionRest(t, comments, i, digits) == Ok(DOUBLE, i + |s| + |ExponentText(e)|)
  {
    hide ExponentRest, AllDigits, Has, FractionRest;
    FractionScanned(t, comments, i, s, |s|, digits);
    if e.Exponent? {
      ExponentBack(t, comments, i + |s|, e);
    }
    FractionEnds(t, comments, i + |s|, digits + |s|);
  }

  lemma FractionEnds(t: string, comments: bool, i: nat, digits: nat)
    requires i <= |t| && digits > 0
    ensures Follows(At(t, i)) ==> FractionRest(t, comments, i, digits) == Ok(DOUBLE, i)
    ensures i < |t| && (t[i] == 'e' || t[i] == 'E') ==>
              FractionRest(t, comments, i, digits) == ExponentRest(t, comments, i + 1, false, 0)
    ensures i < |t| && t[i] == '.' ==> FractionRest(t, comments, i, digits) == Ok(DOUBLE, i)
  {
    hide ExponentRest;
  }

  function NumberText(neg: bool, whole: string, frac: string, e: Exponent): string {
    (if neg then "-" else "") + (whole + (FractionText(frac) + ExponentText(e)))
  }

  /** A number is read as `NumberOf` says, or its reading stops at the point. */
  lemma NumberRead(t: string, comments: bool, i: nat, neg: bool, whole: string, frac: string, e: Exponent)
    requires IntOk(whole) && AllDigits(frac) && ExponentOk(e)
    requires Has(t, NumberText(neg, whole, frac, e), i) && Follows(At(t, i + |NumberText(neg, whole, frac, e)|))
    ensures i <= |t|
    ensures var r := Value(t, comments, i); var v := NumberOf(neg, whole, frac, e);
            if v.Some? then r == Ok(v.value, i + |NumberText(neg, whole, frac, e)|) else Stuck(t, comments, r)
  {
    hide ExponentText, FractionText, NumberText, Has, AllDigits, IntOk, ExponentOk, Follows, Amount, Stuck;
    hide IntegerRest, FractionRest, ExponentRest, Value;
    NumberParts(t, i, neg, whole, frac, e);
    var start := if neg then i + 1 else i;
    var k, n := start + |whole|, Amount(whole, |whole|);
    NumberBegins(t, comments, i, neg, whole[0]);
    IntScanned(t, comments, start, neg, whole, |whole|);
    if n <= INT_MAX {
      TailBack(t, comments, k, neg, n, |whole|, |whole| == 1 && whole[0] == '0', frac, e);
    } else {
      LargeTail(t, comments, k, |whole|, frac, e);
    }
  }

  /** Where the parts of a number stand. */
  lemma NumberParts(t: string, i: nat, neg: bool, whole: string, frac: string, e: Exponent)
    requires IntOk(whole) && Has(t, NumberText(neg, whole, frac, e), i)
    ensures whole != "" && IsDigit(whole[0]) && AllDigits(whole) && i < |t|
    ensures if neg then t[i] == '-' && At(t, i + 1) == whole[0] else t[i] == whole[0]
    ensures var k := (if neg then i + 1 else i) + |whole|;
            && Has(t, whole, if neg then i + 1 else i) && Has(t, FractionText(frac), k)
            && Has(t, ExponentText(e), k + |FractionText(frac)|)
            && i + |NumberText(neg, whole, frac, e)| == k + |FractionText(frac)| + |ExponentText(e)|
  {
    hide ExponentText, FractionText, Has;
    var tail := FractionText(frac) + ExponentText(e);
    var sign := if neg then "-" else "";
    HasPart(t, i, sign, whole + tail);
    HasPart(t, i + |sign|, whole, tail);
    HasPart(t, i + |sign| + |whole|, FractionText(frac), ExponentText(e));
    HasChar(t, whole, i + |sign|, 0);
    HasInside(t, whole, i + |sign|);
    if neg {
      HasChar(t, "-", i, 0);
    }
  }

  lemma NumberBegins(t: string, comments: bool, i: nat, neg: bool, first: char)
    requires i < |t| && IsDigit(first) && if neg then t[i] == '-' && At(t, i + 1) == first else t[i] == first
    ensures Value(t, comments, i)
         == IntegerRest(t, comments, if neg then i + 1 else i, neg, 0, 0, false)
  {
    hide IntegerRest, Array, Object, Literal, StringRest;
  }

  /** What follows an integer part that is too large. */
  lemma LargeTail(t: string, comments: bool, i: nat, digits: nat, frac: string, e: Exponent)
    requires AllDigits(frac) && ExponentOk(e) && digits > 0
    requires Has(t, FractionText(frac), i) && Has(t, ExponentText(e), i + |FractionText(frac)|)
    requires Follows(At(t, i + |FractionText(frac)| + |ExponentText(e)|))
    ensures i <= |t|
    ensures if frac == "" then
              FractionRest(t, comments, i, digits) == Ok(DOUBLE, i + |FractionText(frac)| + |ExponentText(e)|)
            else Stuck(t, comments, FractionRest(t, comments, i, digits))
  {
    hide ExponentRest, FractionRest, Has, AllDigits, ExponentText, ExponentOk, Follows;
    HasInside(t, FractionText(frac), i);
    if frac == "" {
      NothingThere(t, i);
      FractionBack(t, comments, i, "", digits, e);
    } else {
      HasPart(t, i, ".", frac);
      HasChar(t, ".", i, 0);
      FractionEnds(t, comments, i, digits);
    }
  }

  lemma NothingThere(t: string, i: nat)
    requires i <= |t|
    ensures Has(t, "", i) && AllDigits("")
  {
  }

  // A number in front of a slash.

  lemma ExponentSlash(t: string, comments: bool, i: nat, e: Exponent)
    requires e.Exponent? && ExponentOk(e) && Has(t, ExponentText(e), i) && At(t, i + |ExponentText(e)|) == '/'
    ensures i < |t| && t[i] == e.letter && Stuck(t, comments, ExponentRest(t, comments, i + 1, false, 0))
  {
    hide ExponentRest, Has, ExponentText;
    ExponentIs(e);
    ExponentPassed(t, comments, i, e);
    SlashEndsExponent(t, comments, i + |ExponentText(e)|, |e.digits|);
  }

  lemma SlashEndsExponent(t: string, comments: bool, i: nat, digits: nat)
    requires i <= |t| && At(t, i) == '/' && digits > 0
    ensures Stuck(t, comments, ExponentRest(t, comments, i, true, digits))
  {
  }

  lemma FractionSlash(t: string, comments: bool, i: nat, s: string, digits: nat, e: Exponent)
    requires AllDigits(s) && ExponentOk(e) && digits + |s| > 0
    requires Has(t, s, i) && Has(t, ExponentText(e), i + |s|) && At(t, i + |s| + |ExponentText(e)|) == '/'
    ensures i <= |t| && Stuck(t, comments, FractionRest(t, comments, i, digits))
  {
    hide ExponentRest, AllDigits, Has, FractionRest, Stuck;
    FractionScanned(t, comments, i, s, |s|, digits);
    if e.Exponent? {
      ExponentSlash(t, comments, i + |s|, e);
      FractionEnds(t, comments, i + |s|, digits + |s|);
    } else {
      SlashEndsFraction(t, comments, i + |s|, digits + |s|);
    }
  }

  lemma SlashEndsFraction(t: string, comments: bool, i: nat, digits: nat)
    requires i <= |t| && At(t, i) == '/' && digits > 0
    ensures Stuck(t, comments, FractionRest(t, comments, i, digits))
  {
    hide ExponentRest;
  }

  lemma IntegerSlash(t: string, comments: bool, i: nat, neg: bool, n: nat, digits: nat, zero: bool, e: Exponent)
    requires ExponentOk(e) && Has(t, ExponentText(e), i) && At(t, i + |ExponentText(e)|) == '/' && i <= |t|
    ensures Stuck(t, comments, IntegerRest(t, comments, i, neg, n, digits, zero))
  {
    hide Stuck;
    if e.Exponent? {
      ExponentSlash(t, comments, i, e);
      LetterBack(t, comments, i, neg, n, digits, zero);
    } else {
      SlashEndsInteger(t, comments, i, neg, n, digits, zero);
    }
    hide ExponentRest, FractionRest, Has, IntegerRest;
  }

  lemma LetterBack(t: string, comments: bool, i: nat, neg: bool, n: nat, digits: nat, zero: bool)
    requires i < |t| && (t[i] == 'e' || t[i] == 'E')
    ensures IntegerRest(t, comments, i, neg, n, digits, zero) == ExponentRest(t, comments, i + 1, false, 0)
  {
    hide ExponentRest, FractionRest;
  }

  lemma SlashEndsInteger(t: string, comments: bool, i: nat, neg: bool, n: nat, digits: nat, zero: bool)
    requires i <= |t| && At(t, i) == '/'
    ensures Stuck(t, comments, IntegerRest(t, comments, i, neg, n, digits, zero))
  {
    hide ExponentRest, FractionRest;
  }

  /** A number directly in front of a slash is not taken; comments may not stand there, either. */
  lemma NumberSlash(t: string, comments: bool, i: nat, neg: bool, whole: string, frac: string, e: Exponent)
    requires IntOk(whole) && AllDigits(frac) && ExponentOk(e)
    requires Has(t, NumberText(neg, whole, frac, e), i) && At(t, i + |NumberText(neg, whole, frac, e)|) == '/'
    ensures i <= |t| && Stuck(t, comments, Value(t, comments, i))
  {
    hide ExponentText, FractionText, NumberText, Has, AllDigits, IntOk, ExponentOk, Amount, Stuck;
    hide IntegerRest, FractionRest, ExponentRest, Value;
    NumberParts(t, i, neg, whole, frac, e);
    var start := if neg then i + 1 else i;
    var k, n := start + |whole|, Amount(whole, |whole|);
    NumberBegins(t, comments, i, neg, whole[0]);
    IntScanned(t, comments, start, neg, whole, |whole|);
    HasInside(t, whole, start);
    PartsSlash(t, comments, k, neg, n, |whole|, |whole| == 1 && whole[0] == '0', frac, e);
  }

  lemma FractionIs(frac: string)
    ensures FractionText(frac) == if frac == "" then "" else "." + frac
  {
  }

  lemma PointStops(t: string, comments: bool, i: nat)
    requires i < |t| && t[i] == '.'
    ensures Stuck(t, comments, Ok(DOUBLE, i))
  {
  }

  /** Behind the integer part, large or not. */
  lemma PartsSlash(t: string, comments: bool, i: nat, neg: bool, n: nat, digits: nat, zero: bool, frac: string,
                   e: Exponent)
    requires AllDigits(frac) && ExponentOk(e) && digits > 0 && i <= |t|
    requires Has(t, FractionText(frac), i) && Has(t, ExponentText(e), i + |FractionText(frac)|)
    requires At(t, i + |FractionText(frac)| + |ExponentText(e)|) == '/'
    ensures Stuck(t, comments, IntegerRest(t, comments, i, neg, n, digits, zero))
    ensures Stuck(t, comments, FractionRest(t, comments, i, digits))
  {
    hide ExponentRest, FractionRest, AllDigits, Has, ExponentText, ExponentOk, IntegerRest, FractionText, Stuck;
    FractionIs(frac);
    if frac != "" {
      HasPart(t, i, ".", frac);
      HasChar(t, ".", i, 0);
      HasInside(t, ".", i);
      PointStops(t, comments, i);
      PointBack(t, comments, i, neg, n, digits, zero);
      FractionSlash(t, comments, i + 1, frac, 0, e);
      FractionEnds(t, comments, i, digits);
    } else {
      NothingThere(t, i);
      IntegerSlash(t, comments, i, neg, n, digits, zero, e);
      FractionSlash(t, comments, i, "", digits, e);
    }
  }

  // What is written for doubles.

  lemma NumberChars(neg: bool, whole: string, frac: string, e: Exponent)
    requires IntOk(whole) && AllDigits(frac) && ExponentOk(e) && (e.Exponent? ==> e.letter == 'e')
    ensures var g := NumberText(neg, whole, frac, e);
            ',' !in g && ('.' in g <==> frac != "") && ('e' in g <==> e.Exponent?)
  {
    hide NumberText, AllDigits, ExponentOk;
    NumberChar(neg, whole, frac, e, ',');
    NumberChar(neg, whole, frac, e, '.');
    NumberChar(neg, whole, frac, e, 'e');
  }

  /** A character that is neither a digit nor a sign. */
  lemma NumberChar(neg: bool, whole: string, frac: string, e: Exponent, c: char)
    requires AllDigits(whole) && AllDigits(frac) && ExponentOk(e) && !IsDigit(c) && c != '-' && c != '+'
    ensures c in NumberText(neg, whole, frac, e)
            <==> (frac != "" && c == '.') || (e.Exponent? && c == e.letter)
  {
    NoDigit(whole, c);
    NoDigit(frac, c);
    if e.Exponent? {
      NoDigit(e.digits, c);
      assert c !in e.sign + e.digits;
    }
    assert c in ExponentText(e) <==> e.Exponent? && c == e.letter;
    assert c in FractionText(frac) <==> frac != "" && c == '.';
    hide AllDigits, ExponentOk, ExponentText, FractionText;
  }

  lemma NoDigit(s: string, c: char)
    requires AllDigits(s) && !IsDigit(c)
    ensures c !in s
  {
  }

  /** The text of a finite double, which %g prints as a number, perhaps without a point. */
  lemma DoubleIsNumber(neg: bool, whole: string, frac: string, e: Exponent)
    requires IntOk(whole) && AllDigits(frac) && ExponentOk(e) && (e.Exponent? ==> e.letter == 'e')
    ensures DoubleText(NumberText(neg, whole, frac, e))
         == NumberText(neg, whole, if frac == "" && e.NoExponent? then "0" else frac, e)
  {
    NumberChars(neg, whole, frac, e);
    hide NumberText, IntOk, AllDigits, ExponentOk;
    if frac == "" && e.NoExponent? {
      PointZero(neg, whole);
    }
  }

  lemma PointZero(neg: bool, whole: string)
    ensures NumberText(neg, whole, "", NoExponent) + ".0" == NumberText(neg, whole, "0", NoExponent)
  {
  }

  /** Where a comma is printed for the point, a point is written. */
  lemma CommaBecomesPoint(neg: bool, whole: string, frac: string, e: Exponent)
    requires AllDigits(whole) && frac != ""
    ensures DoubleText((if neg then "-" else "") + (whole + ("," + frac + ExponentText(e))))
            == NumberText(neg, whole, frac, e)
  {
    hide ExponentText, DoubleText, AllDigits;
    var sign := if neg then "-" else "";
    NoDigit(whole, ',');
    Regrouped(sign, whole, ",", frac, ExponentText(e));
    Regrouped(sign, whole, ".", frac, ExponentText(e));
    CommaReplaced(sign + whole, frac + ExponentText(e));
  }

  lemma Regrouped(a: string, b: string, c: string, d: string, e: string)
    ensures a + (b + (c + d + e)) == a + b + (c + (d + e))
  {
  }

  lemma CommaReplaced(x: string, y: string)
    requires ',' !in x
    ensures DoubleText(x + ("," + y)) == x + ("." + y)
  {
    hide Find;
    FindBehind(x, "," + y, ',');
    Replaced(x, y);
  }

  lemma Replaced(x: string, y: string)
    ensures |x| < |x + ("," + y)| && (x + ("," + y))[|x| := '.'] == x + ("." + y)
  {
  }

  lemma {:induction false} FindBehind(x: string, y: string, c: char)
    requires c !in x && y != "" && y[0] == c
    ensures Find(x + y, c) == |x|
    decreases |x|
  {
    if x == "" {
      assert x + y == y;
    } else {
      assert (x + y)[1..] == x[1..] + y;
      FindBehind(x[1..], y, c);
    }
  }

  /** What is written for a finite double is read as a double, wherever it stands, if its integer
      part is not beyond INT64_MAX; %g prints at most six digits there. */
  lemma DoubleBack(t: string, comments: bool, i: nat, neg: bool, whole: string, frac: string, e: Exponent)
    requires IntOk(whole) && AllDigits(frac) && ExponentOk(e) && (e.Exponent? ==> e.letter == 'e')
    requires Amount(whole, |whole|) <= INT_MAX
    requires var x := DoubleText(NumberText(neg, whole, frac, e)); Has(t, x, i) && Follows(At(t, i + |x|))
    ensures i <= |t|
    ensures Value(t, comments, i) == Ok(DOUBLE, i + |DoubleText(NumberText(neg, whole, frac, e))|)
  {
    hide NumberText, IntOk, ExponentOk, Has, Follows, Amount, Value, DoubleText;
    DoubleIsNumber(neg, whole, frac, e);
    NumberRead(t, comments, i, neg, whole, if frac == "" && e.NoExponent? then "0" else frac, e);
  }

  lemma {:induction false} AmountWithin(s: string, x: string, k: nat)
    requires AllDigits(s + x) && k <= |s|
    ensures AllDigits(s) && Amount(s + x, k) == Amount(s, k)
  {
    assert forall i | 0 <= i < |s| :: (s + x)[i] == s[i];
    if k > 0 {
      AmountWithin(s, x, k - 1);
    }
  }

  /** The digits of n are an integer part, and its value is n. */
  lemma {:induction false} DigitsAmount(n: nat)
    ensures IntOk(Digits(n)) && Amount(Digits(n), |Digits(n)|) == n && (n > 0 ==> Digits(n)[0] != '0')
  {
    if n >= 10 {
      var s, x := Digits(n / 10), [DigitChar(n % 10)];
      DigitsAmount(n / 10);
      AmountWithin(s, x, |s|);
      assert (s + x)[0] == s[0] && (s + x)[|s|] == x[0];
    } else {
      assert Amount(Digits(n), 0) == 0;
    }
  }
}
