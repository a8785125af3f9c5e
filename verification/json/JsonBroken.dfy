/** Words, strings and numbers that are none: what the parser makes of their beginnings. */
module JsonBroken {
  import opened Wrappers
  import opened Parts
  import opened JsonGrammar
  import opened JsonPrinter
  import opened JsonUnicode
  import opened JsonScalars
  import Hex

  /** What begins like a word, string or number and does not go on like one: the letter of
      another word, a string without an end or with a bad escape, a zero in front of a digit, a
      point or an exponent without digits. */
  datatype Broken =
    | NoWord(letter: char)
    | Unclosed(units: Units)
    | BadCode(units: Units)
    | Zeros(neg: bool)
    | BarePoint(neg: bool, whole: string)
    | BareExponent(neg: bool, whole: string, frac: string, letter: char, sign: string)

  function BrokenText(b: Broken): string {
    match b
    case NoWord(letter) => [letter]
    case Unclosed(units) => "\"" + Opened(units)
    case BadCode(units) => "\"" + (Opened(units) + "\\u")
    case Zeros(neg) => Minus(neg) + "0"
    case BarePoint(neg, whole) => Minus(neg) + (whole + ".")
    case BareExponent(neg, whole, frac, letter, sign) =>
      Minus(neg) + (whole + (FractionText(frac) + ([letter] + sign)))
  }

  function Minus(neg: bool): string {
    if neg then "-" else ""
  }

  /** The units of a string that has not ended. */
  function Opened(units: Units): string {
    match units
    case Close => ""
    case More(first, rest) => UnitText(first) + Opened(rest)
  }

  /** What stands behind it does not help. */
  predicate BrokenOk(b: Broken, rest: string) {
    var next := if rest == "" then '\0' else rest[0];
    match b
    case NoWord(letter) =>
      || (letter == 't' && !("rue" <= rest)) || (letter == 'f' && !("alse" <= rest))
      || (letter == 'n' && !("ull" <= rest))
    case Unclosed(units) =>
      UnitsOk(units) && (next == '\0' || (next == '\\' && (|rest| == 1 || rest[1] == '\0')))
    case BadCode(units) => UnitsOk(units)
        && (|rest| < 4 || exists k | 0 <= k < 4 :: rest[k] !in "0123456789abcdefABCDEF")
    case Zeros(_) => '0' <= next <= '9'
    case BarePoint(neg, whole) => !('0' <= next <= '9') && (IntOk(whole) || (neg && whole == ""))
    case BareExponent(neg, whole, frac, letter, sign) =>
      && !('0' <= next <= '9') && IntOk(whole) && AllDigits(frac) && (letter == 'e' || letter == 'E')
      && (sign == "+" || sign == "-" || (sign == "" && next != '+' && next != '-'))
  }

  // ----------------------------------------------------------------------------- words

  lemma NoWordFails(t: string, comments: bool, i: nat, letter: char, rest: string)
    requires BrokenOk(NoWord(letter), rest) && i < |t| && t[i] == letter && t[i + 1..] == rest
    ensures Value(t, comments, i) == Fail
  {
    WordTail(t, i, "true", "rue");
    WordTail(t, i, "false", "alse");
    WordTail(t, i, "null", "ull");
    hide Array, Object, Number, StringRest;
  }

  lemma WordTail(t: string, i: nat, word: string, tail: string)
    requires word != "" && word[1..] == tail
    ensures i + |word| <= |t| && t[i..i + |word|] == word ==> tail <= t[i + 1..]
  {
    if i + |word| <= |t| && t[i..i + |word|] == word {
      assert t[i + 1..][..|tail|] == t[i..i + |word|][1..];
    }
  }

  // --------------------------------------------------------------------------- strings

  /** The string does not go on at k: the text ends, also behind a backslash, or an escape has
      no four digits. */
  predicate CutOff(t: string, k: nat) {
    && k <= |t|
    && (At(t, k) == NUL || (At(t, k) == '\\' && (At(t, k + 1) == NUL || (At(t, k + 1) == 'u' && Hex4(t, k + 2).None?))))
  }

  lemma CutOffFails(t: string, k: nat, n: nat)
    requires CutOff(t, k)
    ensures StringRest(t, k, n) == Fail
  {
    hide Hex4, PairValue, Utf8;
    assert At(t, k) == '\\' && At(t, k + 1) == 'u' ==> UnicodeEscape(t, k + 1) == Fail;
  }

  lemma OpenedSplit(t: string, i: nat, units: Units)
    requires units.More? && Has(t, Opened(units), i)
    ensures Has(t, UnitText(units.first), i) && Has(t, Opened(units.rest), i + |UnitText(units.first)|)
    ensures |Opened(units)| == |UnitText(units.first)| + |Opened(units.rest)|
  {
    hide UnitText, Has;
    HasPart(t, i, UnitText(units.first), Opened(units.rest));
  }

  /** A unit that is no code is one step. */
  lemma UnitSteps(t: string, i: nat, u: Unit, n: nat)
    requires !u.Code? && UnitOk(u) && Has(t, UnitText(u), i)
    ensures var k := i + |UnitText(u)|;
            i < k <= |t| && (StringRest(t, k, n + 1) == Fail ==> StringRest(t, i, n) == Fail)
  {
    var k := i + |UnitText(u)|;
    HasChar(t, UnitText(u), i, 0);
    HasInside(t, UnitText(u), i);
    hide UnicodeEscape, Utf8, Has;
    if u.Short? {
      HasChar(t, UnitText(u), i, 1);
      assert Escape(t, i + 1) == Ok([ShortValue(u.c)], i + 2);
    }
  }

  /** A second escape is one of the units. */
  lemma SecondThere(t: string, j: nat, units: Units)
    requires UnitsOk(units) && Has(t, Opened(units), j) && CutOff(t, j + |Opened(units)|)
    requires At(t, j) == '\\' && At(t, j + 1) == 'u' && Hex4(t, j + 2).Some?
    ensures StartsWithCode(units)
  {
    hide Hex4;
    if units.More? {
      OpenedSplit(t, j, units);
      HasChar(t, UnitText(units.first), j, 0);
      if units.first.Short? {
        HasChar(t, UnitText(units.first), j, 1);
      }
    }
  }

  lemma EscapeEnd(t: string, j: nat)
    ensures var e := UnicodeEscape(t, j);
            e.Ok? ==>
              e.pos == j + 5
              || (e.pos == j + 11 && At(t, j + 5) == '\\' && At(t, j + 6) == 'u' && Hex4(t, j + 7).Some?)
  {
    hide Hex4, PairValue;
  }

  /** A string whose units end where it does not go on is none. */
  lemma {:induction false} UnclosedFails(t: string, i: nat, units: Units, n: nat)
    requires UnitsOk(units) && Has(t, Opened(units), i) && CutOff(t, i + |Opened(units)|)
    ensures i <= |t| && StringRest(t, i, n) == Fail
    decreases units
  {
    hide StringRest, Has, UnicodeEscape, Hex4, Utf8, CutOff, UnitText, UnitOk;
    if units.Close? {
      OpenedNone(t, i);
      CutOffFails(t, i, n);
    } else {
      OpenedSplit(t, i, units);
      if units.first.Code? {
        CodeFails(t, i, units, n);
      } else {
        UnitSteps(t, i, units.first, n);
        UnclosedFails(t, i + |UnitText(units.first)|, units.rest, n + 1);
      }
    }
  }

  lemma OpenedNone(t: string, i: nat)
    requires CutOff(t, i + |Opened(Close)|)
    ensures i <= |t| && CutOff(t, i)
  {
  }

  lemma {:induction false} CodeFails(t: string, i: nat, units: Units, n: nat)
    requires StartsWithCode(units) && UnitsOk(units) && Has(t, Opened(units), i) && CutOff(t, i + |Opened(units)|)
    ensures i <= |t| && StringRest(t, i, n) == Fail
    decreases units, 0
  {
    hide StringRest, Has, UnicodeEscape, Hex4, Utf8, CutOff, UnitText, UnitOk, CodeOf, Opened;
    var hex, rest := units.first.hex, units.rest;
    PieceIs(units);
    OpenedSplit(t, i, units);
    CodeThere(t, i, hex);
    var e := UnicodeEscape(t, i + 1);
    EscapeEnd(t, i + 1);
    EscapeSteps(t, i, n, e);
    if e.Ok? && e.pos == i + 6 {
      UnclosedFails(t, i + 6, rest, n + |Utf8(e.value)|);
    } else if e.Ok? {
      SecondThere(t, i + 6, rest);
      OpenedSplit(t, i + 6, rest);
      CodeLength(rest.first.hex);
      UnclosedFails(t, i + 12, rest.rest, n + |Utf8(e.value)|);
    }
  }

  /** An open string in front of what follows it. */
  lemma OpenFails(t: string, comments: bool, i: nat, units: Units, x: string, rest: string)
    requires Has(t, "\"" + (Opened(units) + x), i) && UnitsOk(units)
    requires var k := i + 1 + |Opened(units)| + |x|; k <= |t| && t[k..] == rest
    requires (x == "" && BrokenOk(Unclosed(units), rest)) || (x == "\\u" && BrokenOk(BadCode(units), rest))
    ensures i < |t| && t[i] == '"' && Value(t, comments, i) == Fail
  {
    hide StringRest, Has, Opened, CutOff, UnitsOk, BrokenOk, Value;
    var k := i + 1 + |Opened(units)|;
    HasPart(t, i, "\"", Opened(units) + x);
    HasChar(t, "\"", i, 0);
    HasPart(t, i + 1, Opened(units), x);
    CutThere(t, k, x, units, rest);
    BrokenUnits(units, rest);
    UnclosedFails(t, i + 1, units, 0);
    QuoteFails(t, comments, i);
  }

  lemma BrokenUnits(units: Units, rest: string)
    requires BrokenOk(Unclosed(units), rest) || BrokenOk(BadCode(units), rest)
    ensures UnitsOk(units)
  {
  }

  lemma QuoteFails(t: string, comments: bool, i: nat)
    requires i < |t| && t[i] == '"' && StringRest(t, i + 1, 0) == Fail
    ensures Value(t, comments, i) == Fail
  {
    hide Array, Object, StringRest, Number, Literal;
  }

  lemma CutThere(t: string, k: nat, x: string, units: Units, rest: string)
    requires Has(t, x, k) && k + |x| <= |t| && t[k + |x|..] == rest
    requires (x == "" && BrokenOk(Unclosed(units), rest)) || (x == "\\u" && BrokenOk(BadCode(units), rest))
    ensures CutOff(t, k)
  {
    hide Hex4, Has;
    var end := k + |x|;
    assert |rest| == |t| - end && forall j | 0 <= j < |rest| :: rest[j] == t[end + j];
    if x == "" {
      EndThere(t, k, units, rest);
    } else {
      hide BrokenOk;
      HasChar(t, x, k, 0);
      HasChar(t, x, k, 1);
      CodeThereNot(t, end, units, rest);
    }
  }

  lemma EndThere(t: string, k: nat, units: Units, rest: string)
    requires BrokenOk(Unclosed(units), rest) && k <= |t| && |rest| == |t| - k
    requires forall j | 0 <= j < |rest| :: rest[j] == t[k + j]
    ensures CutOff(t, k)
  {
    hide Hex4;
    assert rest != "" ==> At(t, k) == rest[0];
    assert |rest| > 1 ==> At(t, k + 1) == rest[1];
  }

  lemma CodeThereNot(t: string, k: nat, units: Units, rest: string)
    requires BrokenOk(BadCode(units), rest) && k <= |t| && |rest| == |t| - k
    requires forall j | 0 <= j < |rest| :: rest[j] == t[k + j]
    ensures Hex4(t, k).None?
  {
    hide Hex4;
    Hex.DigitExact();
    if |rest| >= 4 {
      var j :| 0 <= j < 4 && rest[j] !in "0123456789abcdefABCDEF";
      NoHex4(t, k, j);
    } else {
      NoHex4(t, k, |rest|);
    }
  }

  lemma NoHex4(t: string, k: nat, j: nat)
    requires j < 4 && HexValue(At(t, k + j)).None?
    ensures Hex4(t, k).None?
  {
    hide HexValue;
  }

  // --------------------------------------------------------------------------- numbers

  lemma ZeroFails(t: string, comments: bool, i: nat, neg: bool)
    requires i + 1 < |t| && t[i] == '0' && IsDigit(t[i + 1])
    ensures IntegerRest(t, comments, i, neg, 0, 0, false) == Fail
  {
    hide FractionRest, ExponentRest;
    assert IntegerRest(t, comments, i + 1, neg, 0, 1, true) == Fail;
  }

  lemma PointFails(t: string, comments: bool, i: nat)
    requires i <= |t| && !IsDigit(At(t, i))
    ensures FractionRest(t, comments, i, 0) == Fail
  {
  }

  lemma FirstPoint(t: string, comments: bool, i: nat, neg: bool)
    requires i < |t| && t[i] == '.'
    ensures IntegerRest(t, comments, i, neg, 0, 0, false) == Fail
  {
  }

  /** An exponent without digits, from behind its letter. */
  lemma ExponentFails(t: string, comments: bool, i: nat, sign: string)
    requires Has(t, sign, i) && sign in ["", "+", "-"] && !IsDigit(At(t, i + |sign|))
    requires sign == "" ==> At(t, i) != '+' && At(t, i) != '-'
    ensures i <= |t| && ExponentRest(t, comments, i, false, 0) == Fail
  {
    HasInside(t, sign, i);
    if sign != "" {
      HasChar(t, sign, i, 0);
      assert ExponentRest(t, comments, i + 1, true, 0) == Fail;
    }
  }

  /** An integer part is passed, large or not. */
  lemma WholePassed(t: string, comments: bool, i: nat, neg: bool, whole: string)
    requires IntOk(whole) && Has(t, Minus(neg) + whole, i)
    ensures var k := i + |Minus(neg) + whole|; var n := Amount(whole, |whole|);
            && i < k <= |t|
            && Value(t, comments, i)
               == if n <= INT_MAX then IntegerRest(t, comments, k, neg, n, |whole|, |whole| == 1 && whole[0] == '0')
                  else FractionRest(t, comments, k, |whole|)
  {
    hide Has, Amount, IntegerRest, FractionRest, AllDigits, Value;
    HasPart(t, i, Minus(neg), whole);
    var k := i + |Minus(neg)|;
    if neg {
      HasChar(t, "-", i, 0);
    }
    HasChar(t, whole, k, 0);
    HasInside(t, whole, k);
    WholeStarts(whole);
    NumberBegins(t, comments, i, neg, whole[0]);
    IntScanned(t, comments, k, neg, whole, |whole|);
  }

  lemma WholeStarts(whole: string)
    requires IntOk(whole)
    ensures whole != "" && IsDigit(whole[0]) && AllDigits(whole)
  {
  }

  lemma BarePointStuck(t: string, comments: bool, i: nat, neg: bool, whole: string)
    requires Has(t, Minus(neg) + (whole + "."), i) && IntOk(whole) && !IsDigit(At(t, i + |Minus(neg) + (whole + ".")|))
    ensures i < |t| && Stuck(t, comments, Value(t, comments, i))
  {
    hide Has, Amount, IntegerRest, FractionRest, Value, IntOk;
    Joined3(Minus(neg), whole, ".");
    HasPart(t, i, Minus(neg) + whole, ".");
    WholePassed(t, comments, i, neg, whole);
    WholeStarts(whole);
    var k := i + |Minus(neg) + whole|;
    HasChar(t, ".", k, 0);
    HasInside(t, ".", k);
    PointBack(t, comments, k, neg, Amount(whole, |whole|), |whole|, |whole| == 1 && whole[0] == '0');
    PointFails(t, comments, k + 1);
    FractionEnds(t, comments, k, |whole|);
  }

  lemma Joined3(a: string, b: string, c: string)
    ensures a + (b + c) == a + b + c
  {
  }

  lemma LonePoint(t: string, comments: bool, i: nat)
    requires Has(t, "-.", i)
    ensures i + 1 < |t| && Value(t, comments, i) == Fail
  {
    HasChar(t, "-.", i, 0);
    HasChar(t, "-.", i, 1);
    HasInside(t, "-.", i);
    FirstPoint(t, comments, i + 1, true);
    hide IntegerRest, Array, Object, StringRest, Literal;
  }

  lemma ZerosFail(t: string, comments: bool, i: nat, neg: bool)
    requires Has(t, Minus(neg) + "0", i) && IsDigit(At(t, i + |Minus(neg)| + 1))
    ensures i < |t| && Value(t, comments, i) == Fail
  {
    HasPart(t, i, Minus(neg), "0");
    var k := i + |Minus(neg)|;
    if neg {
      HasChar(t, "-", i, 0);
    }
    HasChar(t, "0", k, 0);
    hide Has, IntegerRest, Value;
    NumberBegins(t, comments, i, neg, '0');
    ZeroFails(t, comments, k, neg);
  }

  lemma BareExponentStuck(t: string, comments: bool, i: nat, neg: bool, whole: string, frac: string, letter: char,
                          sign: string)
    requires IntOk(whole) && AllDigits(frac) && (letter == 'e' || letter == 'E') && sign in ["", "+", "-"]
    requires Has(t, Minus(neg) + (whole + (FractionText(frac) + ([letter] + sign))), i)
    requires var next := At(t, i + |Minus(neg) + (whole + (FractionText(frac) + ([letter] + sign)))|);
             !IsDigit(next) && (sign == "" ==> next != '+' && next != '-')
    ensures i < |t| && Stuck(t, comments, Value(t, comments, i))
  {
    hide Has, Amount, IntegerRest, FractionRest, ExponentRest, Value, IntOk, AllDigits, FractionText, Stuck;
    var tail := FractionText(frac) + ([letter] + sign);
    Joined3(Minus(neg), whole, tail);
    HasPart(t, i, Minus(neg) + whole, tail);
    WholePassed(t, comments, i, neg, whole);
    WholeStarts(whole);
    var k := i + |Minus(neg) + whole|;
    var j := k + |FractionText(frac)|;
    HasPart(t, k, FractionText(frac), [letter] + sign);
    HasPart(t, j, [letter], sign);
    HasChar(t, [letter], j, 0);
    HasInside(t, [letter], j);
    ExponentFails(t, comments, j + 1, sign);
    FractionThen(t, comments, k, j, neg, Amount(whole, |whole|), |whole|, |whole| == 1 && whole[0] == '0', frac);
  }

  /** A fraction, if there is one, in front of a letter behind which reading fails. */
  lemma FractionThen(t: string, comments: bool, k: nat, j: nat, neg: bool, n: nat, digits: nat, zero: bool,
                     frac: string)
    requires AllDigits(frac) && Has(t, FractionText(frac), k) && j == k + |FractionText(frac)| && j < |t| && digits > 0
    requires (t[j] == 'e' || t[j] == 'E') && ExponentRest(t, comments, j + 1, false, 0) == Fail
    ensures k <= |t| && Stuck(t, comments, IntegerRest(t, comments, k, neg, n, digits, zero))
    ensures Stuck(t, comments, FractionRest(t, comments, k, digits))
  {
    hide Has, IntegerRest, FractionRest, ExponentRest, AllDigits, Stuck, FractionText;
    FailStuck(t, comments);
    FractionIs(frac);
    if frac == "" {
      LetterBack(t, comments, k, neg, n, digits, zero);
      FractionEnds(t, comments, k, digits);
    } else {
      HasPart(t, k, ".", frac);
      HasChar(t, ".", k, 0);
      HasInside(t, ".", k);
      PointBack(t, comments, k, neg, n, digits, zero);
      FractionScanned(t, comments, k + 1, frac, |frac|, 0);
      FractionEnds(t, comments, j, |frac|);
      FractionEnds(t, comments, k, digits);
      PointStops(t, comments, k);
    }
  }

  lemma FailStuck(t: string, comments: bool)
    ensures Stuck(t, comments, Fail)
  {
  }

  // ------------------------------------------------------------------------ all of them

  lemma BrokenStarts(t: string, i: nat, b: Broken, rest: string)
    requires BrokenOk(b, rest) && Has(t, BrokenText(b), i)
    ensures BrokenText(b) != "" && i < |t| && StartsValue(t[i])
  {
    hide Opened, FractionText, Has;
    assert b.BarePoint? && b.whole != "" ==> IsDigit(b.whole[0]);
    assert b.BareExponent? ==> IsDigit(b.whole[0]);
    HasChar(t, BrokenText(b), i, 0);
    HasInside(t, BrokenText(b), i);
  }

  /** None of them is read as a value. */
  lemma BrokenStuck(t: string, comments: bool, i: nat, b: Broken, rest: string)
    requires BrokenOk(b, rest) && Has(t, BrokenText(b), i) && i + |BrokenText(b)| <= |t|
    requires t[i + |BrokenText(b)|..] == rest
    ensures i < |t| && Stuck(t, comments, Value(t, comments, i))
    ensures StartsValue(t[i]) && (b.Unclosed? || b.BadCode? ==> t[i] == '"')
  {
    BrokenStarts(t, i, b, rest);
    hide Has, Value, Opened, IntOk, AllDigits, FractionText, UnitsOk;
    var k := i + |BrokenText(b)|;
    assert At(t, k) == if rest == "" then NUL else rest[0];
    match b
    case NoWord(letter) =>
      HasChar(t, [letter], i, 0);
      NoWordFails(t, comments, i, letter, rest);
    case Unclosed(units) =>
      assert Opened(units) + "" == Opened(units);
      OpenFails(t, comments, i, units, "", rest);
    case BadCode(units) => OpenFails(t, comments, i, units, "\\u", rest);
    case Zeros(neg) => ZerosFail(t, comments, i, neg);
    case BarePoint(neg, whole) =>
      if whole == "" {
        assert Minus(neg) == "-" && Minus(neg) + (whole + ".") == "-.";
        LonePoint(t, comments, i);
      } else {
        BarePointStuck(t, comments, i, neg, whole);
      }
    case BareExponent(neg, whole, frac, letter, sign) =>
      BareExponentStuck(t, comments, i, neg, whole, frac, letter, sign);
  }
}
