/** The text that the serializer writes, and the size it measures, as recursive
    functions of the tree; and that the grammar reads the text back. */
module JsonPrinter {
  import opened Parts
  import opened Wrappers
  import opened JsonGrammar
  import opened JsonArena

  datatype Layout = Multiline | SingleLine | Packed

  datatype Options = Options(layout: Layout, crlf: bool, packBrackets: bool, noSpaceAfterComma: bool,
                             noSpaceAfterColon: bool, useTabs: bool, indentSize: nat)

  predicate SpacesAroundBrackets(o: Options) {
    o.layout.SingleLine? && !o.packBrackets
  }

  predicate SpacesAfterCommas(o: Options) {
    o.layout.SingleLine? && !o.noSpaceAfterComma
  }

  predicate SpacesAfterColons(o: Options) {
    !o.layout.Packed? && !o.noSpaceAfterColon
  }

  predicate Tabs(o: Options) {
    o.layout.Multiline? && o.useTabs
  }

  function Repeat(b: char, n: nat): string {
    seq(n, _ => b)
  }

  /** A line break and the indentation after it, in the multi-line layout. */
  function Newline(o: Options, indent: nat): string {
    if o.layout.Multiline? then (if o.crlf then "\r\n" else "\n") + Repeat(if Tabs(o) then '\t' else ' ', indent)
    else ""
  }

  function Blank(yes: bool): string {
    if yes then " " else ""
  }

  /** The characters that are written for one character of a string. */
  function EscapedChar(b: char): string {
    if b == '"' then "\\\""
    else if b == '\\' then "\\\\"
    else if b == BACKSPACE then "\\b"
    else if b == FORMFEED then "\\f"
    else if b == '\n' then "\\n"
    else if b == '\r' then "\\r"
    else if b == '\t' then "\\t"
    else [b]
  }

  function Escaped(s: string): string {
    if s == "" then "" else EscapedChar(s[0]) + Escaped(s[1..])
  }

  function Quoted(s: string): string {
    "\"" + Escaped(s) + "\""
  }

  /** The decimal digits of n. */
  function Digits(n: nat): (r: string)
    ensures |r| > 0
  {
    if n < 10 then [DigitChar(n)] else Digits(n / 10) + [DigitChar(n % 10)]
  }

  function DigitChar(d: nat): (b: char)
    requires d < 10
    ensures IsDigit(b) && DigitValue(b) == d
  {
    "0123456789"[d]
  }

  function IntText(n: int): string {
    if n < 0 then "-" + Digits(-n) else Digits(n)
  }

  function Opening(v: Json): char {
    if v.Obj? then '{' else '['
  }

  function Closing(v: Json): char {
    if v.Obj? then '}' else ']'
  }

  /** The name, colon and blank before entry c of an object; nothing in an array. */
  function Label(o: Options, v: Json, c: nat): string {
    if v.Obj? && c < |v.names| then Quoted(v.names[c]) + ":" + Blank(SpacesAfterColons(o)) else ""
  }

  /** What stands before child c: the opening's line break, or a comma. */
  function Separator(o: Options, c: nat, indent: nat): string {
    (if c == 0 then "" else "," + Blank(SpacesAfterCommas(o))) + Newline(o, indent)
  }

  /** What closes a container whose children stand at `indent`. */
  function Ending(o: Options, v: Json, indent: nat): string {
    Newline(o, if indent >= o.indentSize then indent - o.indentSize else 0)
      + Blank(SpacesAroundBrackets(o)) + [Closing(v)]
  }

  /** First position of a character, or the length. */
  function Find(s: string, c: char): (k: nat)
    ensures k <= |s| && (k < |s| <==> c in s) && (k < |s| ==> s[k] == c) && c !in s[..k]
  {
    if s == "" || s[0] == c then 0 else 1 + Find(s[1..], c)
  }

  /** What is written for a double that %g prints as g: a comma becomes a point, and ".0" follows
      where there is neither a point nor an exponent. */
  function DoubleText(g: string): string {
    var k := Find(g, ',');
    if k < |g| then g[k := '.'] else if '.' !in g && 'e' !in g then g + ".0" else g
  }

  /** The text of a value that stands at `indent`. */
  function Text(o: Options, v: Json, indent: nat): string
    decreases v, 1, 0
  {
    match v
    case Null => "null"
    case Bool(b) => if b then "true" else "false"
    case Int(n) => IntText(n)
    case Double(g) => DoubleText(g)
    case Str(s) => Quoted(s)
    case Arr(items) => if items == [] then "[]"
                       else "[" + Blank(SpacesAroundBrackets(o)) + Rest(o, v, 0, indent + o.indentSize)
    case Obj(names, items) => if items == [] then "{}"
                              else "{" + Blank(SpacesAroundBrackets(o)) + Rest(o, v, 0, indent + o.indentSize)
  }

  /** The text of a container from its child c on. */
  function Rest(o: Options, v: Json, c: nat, indent: nat): string
    requires IsContainer(v) && c <= |v.items|
    decreases v, 0, |v.items| - c
  {
    if c == |v.items| then Ending(o, v, indent)
    else Separator(o, c, indent) + Label(o, v, c) + Text(o, v.items[c], indent) + Rest(o, v, c + 1, indent)
  }

  // ------------------------------------------------------------------ round trip

  /** Characters that %g prints, with at most one comma. */
  predicate PercentG(g: string) {
    && g != ""
    && (forall c | c in g :: IsDigit(c) || 'a' <= c <= 'z' || c in "+-.,")
    && forall i, j | 0 <= i < j < |g| :: g[i] == ',' ==> g[j] != ','
  }

  /** What the builder may hold: integers that have a negation, characters of a printed number,
      and as many names as values. */
  predicate Printable(v: Json) {
    match v
    case Double(g) => PercentG(g)
    case Int(n) => -INT_MAX <= n <= INT_MAX
    case Arr(items) => forall k | 0 <= k < |items| :: Printable(items[k])
    case Obj(names, items) => |names| == |items| && forall k | 0 <= k < |items| :: Printable(items[k])
    case _ => true
  }

  predicate NoDouble(v: Json) {
    match v
    case Double(_) => false
    case Arr(items) => forall k | 0 <= k < |items| :: NoDouble(items[k])
    case Obj(_, items) => forall k | 0 <= k < |items| :: NoDouble(items[k])
    case _ => true
  }

  /** What can be read back: the text of a double does not tell the number. */
  predicate Exact(v: Json) {
    Printable(v) && NoDouble(v)
  }

  /** A string that the parser can read back. */
  predicate CleanString(s: string) {
    NUL !in s && |s| <= LENGTH_MAX
  }

  /** The strings have no NUL, and no string or container is too long. */
  predicate Clean(v: Json) {
    match v
    case Str(s) => CleanString(s)
    case Arr(items) => |items| <= LENGTH_MAX && forall k | 0 <= k < |items| :: Clean(items[k])
    case Obj(names, items) =>
      && |items| <= LENGTH_MAX
      && (forall k | 0 <= k < |names| :: CleanString(names[k]))
      && forall k | 0 <= k < |items| :: Clean(items[k])
    case _ => true
  }

  /** The children from c on are clean, and there are not too many. */
  predicate CleanFrom(v: Json, c: nat)
    requires IsContainer(v) && c <= |v.items|
  {
    && |v.items| <= LENGTH_MAX
    && (forall k | c <= k < |v.items| :: Clean(v.items[k]))
    && (v.Obj? ==> forall k | c <= k < |v.names| :: CleanString(v.names[k]))
  }

  lemma HasInside(t: string, x: string, i: nat)
    requires Has(t, x, i)
    ensures i + |x| <= |t|
  {
  }

  lemma HasChar(t: string, x: string, i: nat, k: nat)
    requires Has(t, x, i) && k < |x|
    ensures At(t, i + k) == x[k]
  {
    assert t[i + k] == x[k];
  }

  /** A written string, behind its opening quote. */
  function Terminated(s: string): string {
    Escaped(s) + "\""
  }

  /** Reading a written string gives the string back, or fails if it is not clean. */
  lemma {:induction false} StringBack(t: string, i: nat, s: string, n: nat)
    requires Has(t, Terminated(s), i)
    ensures StringRest(t, i, n) == if NUL !in s && n + |s| <= LENGTH_MAX then Ok(s, i + |Terminated(s)|) else Fail
    decreases |s|
  {
    hide StringRest, EscapedChar, Terminated, Has;
    if s == "" {
      StringEnd(t, i, n);
    } else {
      HasInside(t, Terminated(s), i);
      TerminatedSplit(t, i, s);
      HasInside(t, Terminated(s[1..]), i + |EscapedChar(s[0])|);
      var k := i + |EscapedChar(s[0])|;
      StringBack(t, k, s[1..], n + 1);
      CharBack(t, i, s[0], n);
      StringJoined(s, n, StringRest(t, i, n), StringRest(t, k, n + 1), i + |Terminated(s)|);
    }
  }

  lemma StringEnd(t: string, i: nat, n: nat)
    requires Has(t, Terminated(""), i)
    ensures |Terminated("")| == 1 && StringRest(t, i, n) == if n <= LENGTH_MAX then Ok("", i + 1) else Fail
  {
    assert Terminated("") == "\"";
    HasChar(t, "\"", i, 0);
    hide Escape, Has;
  }

  /** A character in front of the others. */
  lemma TerminatedSplit(t: string, i: nat, s: string)
    requires s != "" && Has(t, Terminated(s), i)
    ensures Has(t, EscapedChar(s[0]), i) && Has(t, Terminated(s[1..]), i + |EscapedChar(s[0])|)
    ensures |Terminated(s)| == |EscapedChar(s[0])| + |Terminated(s[1..])|
  {
    hide EscapedChar, Has;
    var e, rest := EscapedChar(s[0]), Terminated(s[1..]);
    assert Terminated(s) == e + rest;
    HasPart(t, i, e, rest);
  }

  /** The first character in front of what the rest is read as. */
  lemma StringJoined(s: string, n: nat, all: Parsed<string>, rest: Parsed<string>, pos: nat)
    requires s != "" && rest == if NUL !in s[1..] && n + 1 + |s[1..]| <= LENGTH_MAX then Ok(s[1..], pos) else Fail
    requires all == if s[0] == NUL || n > LENGTH_MAX || rest.Fail? then Fail else Ok([s[0]] + rest.value, rest.pos)
    ensures all == if NUL !in s && n + |s| <= LENGTH_MAX then Ok(s, pos) else Fail
  {
    assert s == [s[0]] + s[1..];
    assert NUL in s <==> s[0] == NUL || NUL in s[1..];
  }

  /** One written character is read as one step. */
  lemma CharBack(t: string, i: nat, b: char, n: nat)
    requires Has(t, EscapedChar(b), i)
    ensures StringRest(t, i, n) ==
            if b == NUL || n > LENGTH_MAX then Fail
            else
              var rest := StringRest(t, i + |EscapedChar(b)|, n + 1);
              if rest.Fail? then Fail else Ok([b] + rest.value, rest.pos)
  {
    var e := EscapedChar(b);
    HasChar(t, e, i, 0);
    if |e| == 2 {
      HasChar(t, e, i, 1);
      assert Escape(t, i + 1) == Ok([b], i + 2);
    }
  }

  /** The scanner reads the digits of n as n. */
  lemma {:induction false} DigitsBack(t: string, comments: bool, i: nat, neg: bool, n: nat)
    requires Has(t, Digits(n), i) && n <= INT_MAX
    ensures IntegerRest(t, comments, i, neg, 0, 0, false)
         == IntegerRest(t, comments, i + |Digits(n)|, neg, n, |Digits(n)|, n == 0)
    decreases n
  {
    hide DigitChar, IntegerRest, IsDigit, Has;
    var d := Digits(n);
    HasChar(t, d, i, |d| - 1);
    HasInside(t, d, i);
    if n < 10 {
      DigitRead(t, comments, i, neg, 0, n, 0);
    } else {
      HasPart(t, i, Digits(n / 10), [DigitChar(n % 10)]);
      DigitsBack(t, comments, i, neg, n / 10);
      DigitRead(t, comments, i + |d| - 1, neg, n / 10, n % 10, |d| - 1);
    }
  }

  /** One digit is read. */
  lemma DigitRead(t: string, comments: bool, k: nat, neg: bool, v: nat, d: nat, digits: nat)
    requires k < |t| && d < 10 && t[k] == DigitChar(d) && v * 10 + d <= INT_MAX
    ensures IntegerRest(t, comments, k, neg, v, digits, false)
         == IntegerRest(t, comments, k + 1, neg, v * 10 + d, digits + 1, digits == 0 && d == 0)
  {
    hide FractionRest, ExponentRest;
    assert IsDigit(t[k]) && DigitValue(t[k]) == d && !WouldOverflow(v, d);
  }

  // -------------------------------------------------------- layout and values

  predicate AllSpace(s: string) {
    forall k | 0 <= k < |s| :: IsSpace(s[k])
  }

  /** Written white space is skipped. */
  lemma {:induction false} SkipBack(t: string, comments: bool, i: nat, s: string)
    requires Has(t, s, i) && AllSpace(s)
    ensures Skip(t, comments, i) == Skip(t, comments, i + |s|)
    decreases |s|
  {
    if s != "" {
      HasChar(t, s, i, 0);
      HasPart(t, i, [s[0]], s[1..]);
      assert s == [s[0]] + s[1..];
      SkipBack(t, comments, i + 1, s[1..]);
    }
  }

  lemma NewlineSpace(o: Options, indent: nat)
    ensures AllSpace(Newline(o, indent)) && AllSpace(Blank(true)) && AllSpace(Blank(false))
  {
  }

  lemma BlankSpace(yes: bool)
    ensures AllSpace(Blank(yes))
  {
  }

  /** Characters that neither go on with a number nor open a comment. */
  predicate Follows(b: char) {
    !IsNumberChar(b) && b != '/'
  }

  predicate StartsValue(b: char) {
    b == '{' || b == '[' || b == '"' || b == 't' || b == 'f' || b == 'n' || b == '-' || IsDigit(b)
  }

  lemma DigitsStart(n: nat)
    ensures IsDigit(Digits(n)[0])
  {
  }

  lemma SomeText(o: Options, v: Json, indent: nat)
    ensures Text(o, v, indent) != ""
  {
    hide Rest, Digits, Escaped;
  }

  lemma TextStarts(o: Options, v: Json, indent: nat)
    requires Exact(v)
    ensures |Text(o, v, indent)| > 0 && StartsValue(Text(o, v, indent)[0])
  {
    hide Rest, Digits;
    if v.Int? {
      DigitsStart(if v.n < 0 then -v.n else v.n);
    }
  }

  lemma NumberBack(t: string, comments: bool, i: nat, n: int)
    requires Has(t, IntText(n), i) && -INT_MAX <= n <= INT_MAX && Follows(At(t, i + |IntText(n)|))
    ensures Value(t, comments, i) == Ok(Int(n), i + |IntText(n)|)
  {
    hide Digits, ExponentRest, FractionRest, IntegerRest, Skip, Array, Object, StringRest, Literal, Has;
    HasInside(t, IntText(n), i);
    NumberEnds(t, comments, i + |IntText(n)|, n < 0, if n < 0 then -n else n);
    if n < 0 {
      HasPart(t, i, "-", Digits(-n));
      HasChar(t, "-", i, 0);
      DigitsBack(t, comments, i + 1, true, -n);
    } else {
      DigitsStart(n);
      HasChar(t, Digits(n), i, 0);
      DigitsBack(t, comments, i, false, n);
    }
  }

  /** The digits end in front of what follows. */
  lemma NumberEnds(t: string, comments: bool, i: nat, neg: bool, n: nat)
    requires i <= |t| && Follows(At(t, i)) && n <= INT_MAX
    ensures IntegerRest(t, comments, i, neg, n, |Digits(n)|, n == 0) == Ok(Int(if neg then -(n as int) else n), i)
  {
    hide Digits, ExponentRest, FractionRest;
  }

  lemma WordBack(t: string, comments: bool, i: nat, word: string, v: Json)
    requires Has(t, word, i)
    requires (word == "true" && v == Bool(true)) || (word == "false" && v == Bool(false))
             || (word == "null" && v == Null)
    ensures Value(t, comments, i) == Ok(v, i + |word|)
  {
    HasChar(t, word, i, 0);
  }

  lemma QuotedIs(s: string)
    ensures Quoted(s) == "\"" + Terminated(s)
  {
    hide Escaped;
  }

  lemma QuotedBack(t: string, i: nat, s: string)
    requires Has(t, Quoted(s), i)
    ensures At(t, i) == '"' && i < |t|
    ensures StringRest(t, i + 1, 0) == if CleanString(s) then Ok(s, i + |Quoted(s)|) else Fail
  {
    hide StringRest, CleanFrom, Has, Quoted, Terminated;
    QuotedIs(s);
    HasPart(t, i, "\"", Terminated(s));
    HasChar(t, "\"", i, 0);
    StringBack(t, i + 1, s, 0);
  }

  /** Reading a container from position i with its first c children already read. */
  function Reading(t: string, comments: bool, i: nat, v: Json, c: nat, needComma: bool): Parsed<Json>
    requires IsContainer(v) && c <= |v.items| && i <= |t| && (v.Obj? ==> |v.names| == |v.items|)
  {
    if v.Arr? then Array(t, comments, i, v.items[..c], needComma)
    else Object(t, comments, i, v.names[..c], v.items[..c], needComma)
  }

  lemma RestStarts(o: Options, v: Json, c: nat, indent: nat)
    requires IsContainer(v) && 0 < c <= |v.items|
    ensures |Rest(o, v, c, indent)| > 0 && Follows(Rest(o, v, c, indent)[0])
  {
    hide Text;
    if c == |v.items| {
      NewlineSpace(o, if indent >= o.indentSize then indent - o.indentSize else 0);
    }
  }

  lemma ReadingSame(t: string, comments: bool, i: nat, k: nat, v: Json, c: nat, needComma: bool)
    requires IsContainer(v) && c <= |v.items| && i <= |t| && k <= |t| && (v.Obj? ==> |v.names| == |v.items|)
    requires Skip(t, comments, i) == Skip(t, comments, k)
    ensures Reading(t, comments, i, v, c, needComma) == Reading(t, comments, k, v, c, needComma)
  {
    hide Value, Colon, Skip;
  }

  lemma CommaBack(t: string, comments: bool, v: Json, c: nat, i: nat)
    requires IsContainer(v) && c <= |v.items| && (v.Obj? ==> |v.names| == |v.items|)
    requires i < |t| && t[i] == ','
    ensures Reading(t, comments, i, v, c, true) == Reading(t, comments, i + 1, v, c, false)
  {
    hide Value, Colon;
    assert Skip(t, comments, i) == Some(i);
  }

  /** Reading the separator before child c. */
  lemma SeparatorBack(t: string, comments: bool, o: Options, v: Json, c: nat, indent: nat, i: nat)
    requires IsContainer(v) && c <= |v.items| && (v.Obj? ==> |v.names| == |v.items|)
    requires Has(t, Separator(o, c, indent), i)
    ensures Reading(t, comments, i, v, c, c > 0) == Reading(t, comments, i + |Separator(o, c, indent)|, v, c, false)
  {
    hide Skip, Reading, Newline, Blank, SpacesAfterCommas;
    var nl := Newline(o, indent);
    var b := Blank(SpacesAfterCommas(o));
    NewlineSpace(o, indent);
    if c == 0 {
      assert Separator(o, c, indent) == nl;
      SkipBack(t, comments, i, nl);
      ReadingSame(t, comments, i, i + |nl|, v, c, false);
    } else {
      assert Separator(o, c, indent) == "," + (b + nl);
      HasPart(t, i, ",", b + nl);
      HasChar(t, ",", i, 0);
      CommaBack(t, comments, v, c, i);
      SkipBack(t, comments, i + 1, b + nl);
      ReadingSame(t, comments, i + 1, i + 1 + |b + nl|, v, c, false);
    }
  }

  lemma SpaceConcat(a: string, b: string)
    requires AllSpace(a) && AllSpace(b)
    ensures AllSpace(a + b)
  {
  }

  lemma ClosingBack(t: string, comments: bool, v: Json, k: nat, needComma: bool)
    requires IsContainer(v) && (v.Obj? ==> |v.names| == |v.items|) && k < |t| && t[k] == Closing(v)
    ensures Reading(t, comments, k, v, |v.items|, needComma) == Ok(v, k + 1)
  {
    hide Value, Colon;
    assert Skip(t, comments, k) == Some(k);
    assert v.items[..|v.items|] == v.items;
    assert v.Obj? ==> v.names[..|v.names|] == v.names;
  }

  /** Reading what closes a container. */
  lemma EndingBack(t: string, comments: bool, o: Options, v: Json, indent: nat, i: nat, needComma: bool)
    requires IsContainer(v) && (v.Obj? ==> |v.names| == |v.items|)
    requires Has(t, Ending(o, v, indent), i)
    ensures Reading(t, comments, i, v, |v.items|, needComma) == Ok(v, i + |Ending(o, v, indent)|)
  {
    hide Value, Colon, Skip, Has, Newline, Blank, SpacesAroundBrackets, AllSpace;
    var nl := Newline(o, if indent >= o.indentSize then indent - o.indentSize else 0);
    var b := Blank(SpacesAroundBrackets(o));
    NewlineSpace(o, if indent >= o.indentSize then indent - o.indentSize else 0);
    assert Ending(o, v, indent) == (nl + b) + [Closing(v)];
    HasPart(t, i, nl + b, [Closing(v)]);
    assert AllSpace(nl + b) by { SpaceConcat(nl, b); BlankSpace(SpacesAroundBrackets(o)); }
    SkipBack(t, comments, i, nl + b);
    var k := i + |nl + b|;
    HasChar(t, [Closing(v)], k, 0);
    ClosingBack(t, comments, v, k, needComma);
    hide Reading;
    ReadingSame(t, comments, i, k, v, |v.items|, needComma);
  }

  /** Reading a child, once its text is known to read back. */
  lemma ChildBack(t: string, comments: bool, o: Options, v: Json, c: nat, text: string, i: nat)
    requires IsContainer(v) && c < |v.items| && c <= LENGTH_MAX && (v.Obj? ==> |v.names| == |v.items|)
    requires Has(t, Label(o, v, c) + text, i)
    requires |text| > 0 && StartsValue(text[0])
    requires var p := i + |Label(o, v, c)|; p <= |t| && var r := Value(t, comments, p); r.Ok? ==> r.value == v.items[c]
    ensures var p := i + |Label(o, v, c)|;
            var r := Value(t, comments, p);
            Reading(t, comments, i, v, c, false) ==
            if (v.Obj? && !CleanString(v.names[c])) || r.Fail? || c >= LENGTH_MAX then Fail
            else Reading(t, comments, r.pos, v, c + 1, true)
  {
    hide Value, Label, Has, CleanString;
    HasPart(t, i, Label(o, v, c), text);
    var p := i + |Label(o, v, c)|;
    HasChar(t, text, p, 0);
    SkipStart(t, comments, p);
    hide Skip;
    assert v.items[..c] + [v.items[c]] == v.items[..c + 1];
    if v.Obj? {
      LabelBack(t, comments, o, v, c, i);
      hide Colon;
    } else {
      assert Label(o, v, c) == "" by { NoLabel(o, v, c); }
      hide Colon, Object;
    }
  }

  lemma NoLabel(o: Options, v: Json, c: nat)
    requires !v.Obj?
    ensures Label(o, v, c) == ""
  {
  }

  lemma SkipStart(t: string, comments: bool, p: nat)
    requires p <= |t| && StartsValue(At(t, p))
    ensures Skip(t, comments, p) == Some(p) && p < |t| && At(t, p) != ']' && At(t, p) != '}'
  {
  }

  lemma LabelIs(o: Options, v: Json, c: nat)
    requires v.Obj? && c < |v.names|
    ensures Label(o, v, c) == Quoted(v.names[c]) + (":" + Blank(SpacesAfterColons(o)))
  {
    hide Escaped;
  }

  lemma LabelBack(t: string, comments: bool, o: Options, v: Json, c: nat, i: nat)
    requires v.Obj? && c < |v.items| && |v.names| == |v.items|
    requires Has(t, Label(o, v, c), i)
    requires Skip(t, comments, i + |Label(o, v, c)|).Some?
    ensures Reading(t, comments, i, v, c, false)
         == if CleanString(v.names[c]) then Member(t, comments, i + |Label(o, v, c)|, v.names[..c + 1], v.items[..c])
            else Fail
  {
    hide Member, StringRest, CleanString, Skip, Reading, Has, Quoted, Label, Blank, SpacesAfterColons, AllSpace;
    var b := Blank(SpacesAfterColons(o));
    var q := Quoted(v.names[c]);
    BlankSpace(SpacesAfterColons(o));
    LabelIs(o, v, c);
    HasPart(t, i, q, ":" + b);
    QuotedBack(t, i, v.names[c]);
    HasPart(t, i + |q|, ":", b);
    HasChar(t, ":", i + |q|, 0);
    SkipBack(t, comments, i + |q| + 1, b);
    NameBack(t, comments, v, c, i, i + |q|);
    if CleanString(v.names[c]) {
      MemberSame(t, comments, i + |q| + 1, i + |Label(o, v, c)|, v.names[..c + 1], v.items[..c]);
    }
  }

  /** Reading a quoted name and the colon after it. */
  lemma NameBack(t: string, comments: bool, v: Json, c: nat, i: nat, k: nat)
    requires v.Obj? && c < |v.items| && |v.names| == |v.items|
    requires i < k < |t| && t[i] == '"' && t[k] == ':'
    requires StringRest(t, i + 1, 0) == if CleanString(v.names[c]) then Ok(v.names[c], k) else Fail
    ensures Reading(t, comments, i, v, c, false)
         == if CleanString(v.names[c]) then Member(t, comments, k + 1, v.names[..c + 1], v.items[..c]) else Fail
  {
    hide Value, StringRest, CleanString, Member, Array;
    assert v.names[..c] + [v.names[c]] == v.names[..c + 1];
    assert Skip(t, comments, i) == Some(i) && Skip(t, comments, k) == Some(k);
    assert Colon(t, comments, k, v.names[..c + 1], v.items[..c])
           == Member(t, comments, k + 1, v.names[..c + 1], v.items[..c]);
    if !CleanString(v.names[c]) {
      assert Object(t, comments, i, v.names[..c], v.items[..c], false) == Fail;
    }
  }

  lemma MemberSame(t: string, comments: bool, i: nat, k: nat, names: seq<string>, done: seq<Json>)
    requires i <= |t| && k <= |t| && |names| == |done| + 1 && Skip(t, comments, i) == Skip(t, comments, k)
    ensures Member(t, comments, i, names, done) == Member(t, comments, k, names, done)
  {
    hide Value, Skip, Object, Array;
  }

  /** Reading a written value gives the value back exactly when it is clean. */
  lemma {:induction false} ValueBack(t: string, comments: bool, o: Options, v: Json, indent: nat, i: nat)
    requires Exact(v) && Has(t, Text(o, v, indent), i) && Follows(At(t, i + |Text(o, v, indent)|))
    ensures Value(t, comments, i) == if Clean(v) then Ok(v, i + |Text(o, v, indent)|) else Fail
    decreases v, 2
  {
    hide Skip, Array, Object, StringRest;
    match v
    case Null => WordBack(t, comments, i, "null", Null);
    case Bool(b) => WordBack(t, comments, i, if b then "true" else "false", v);
    case Int(n) => NumberBack(t, comments, i, n);
    case Str(s) => QuotedBack(t, i, s);
    case Arr(items) => ContainerBack(t, comments, o, v, indent, i);
    case Obj(names, items) => ContainerBack(t, comments, o, v, indent, i);
  }

  lemma {:induction false} ContainerBack(t: string, comments: bool, o: Options, v: Json, indent: nat, i: nat)
    requires IsContainer(v) && Exact(v) && Has(t, Text(o, v, indent), i)
    ensures Value(t, comments, i) == if Clean(v) then Ok(v, i + |Text(o, v, indent)|) else Fail
    decreases v, 1
  {
    hide Text, Rest, Value, Skip, Clean, CleanFrom, Reading, SpacesAroundBrackets, Blank, Has;
    CleanAll(v);
    if v.items == [] {
      NoneLeft(v);
      EmptyText(o, v, indent);
      EmptyBack(t, comments, v, i);
    } else {
      var b := Blank(SpacesAroundBrackets(o));
      var inner := indent + o.indentSize;
      var open := [Opening(v)];
      NewlineSpace(o, 0);
      BlankSpace(SpacesAroundBrackets(o));
      TextSplit(o, v, indent);
      HasPart(t, i, open, b + Rest(o, v, 0, inner));
      HasChar(t, open, i, 0);
      HasPart(t, i + 1, b, Rest(o, v, 0, inner));
      RestBack(t, comments, o, v, 0, inner, i + 1 + |b|);
      SkipBack(t, comments, i + 1, b);
      ReadingSame(t, comments, i + 1, i + 1 + |b|, v, 0, false);
      OpeningBack(t, comments, v, i);
    }
  }

  lemma CleanAll(v: Json)
    requires IsContainer(v)
    ensures CleanFrom(v, 0) == Clean(v)
  {
  }

  lemma EmptyText(o: Options, v: Json, indent: nat)
    requires IsContainer(v) && v.items == []
    ensures Text(o, v, indent) == [Opening(v), Closing(v)]
  {
  }

  lemma TextSplit(o: Options, v: Json, indent: nat)
    requires IsContainer(v) && v.items != []
    ensures Text(o, v, indent) == [Opening(v)] + (Blank(SpacesAroundBrackets(o)) + Rest(o, v, 0, indent + o.indentSize))
  {
    hide Rest;
  }

  lemma RestSplit(o: Options, v: Json, c: nat, indent: nat)
    requires IsContainer(v) && c < |v.items|
    ensures Rest(o, v, c, indent)
         == Separator(o, c, indent) + (Label(o, v, c) + (Text(o, v.items[c], indent) + Rest(o, v, c + 1, indent)))
  {
    hide Separator, Label, Text;
  }

  lemma OpeningBack(t: string, comments: bool, v: Json, i: nat)
    requires IsContainer(v) && (v.Obj? ==> |v.names| == |v.items|) && i < |t| && t[i] == Opening(v)
    ensures Value(t, comments, i) == Reading(t, comments, i + 1, v, 0, false)
  {
    hide Array, Object;
    assert v.items[..0] == [] && (v.Obj? ==> v.names[..0] == []);
  }

  lemma EmptyBack(t: string, comments: bool, v: Json, i: nat)
    requires IsContainer(v) && v.items == [] && (v.Obj? ==> v.names == [])
    requires Has(t, [Opening(v), Closing(v)], i)
    ensures Value(t, comments, i) == Ok(v, i + 2)
  {
    HasChar(t, [Opening(v), Closing(v)], i, 0);
    HasChar(t, [Opening(v), Closing(v)], i, 1);
    assert Skip(t, comments, i + 1) == Some(i + 1);
  }

  lemma CleanStep(v: Json, c: nat)
    requires IsContainer(v) && c < |v.items| && (v.Obj? ==> |v.names| == |v.items|)
    ensures CleanFrom(v, c) <==> Clean(v.items[c]) && (v.Obj? ==> CleanString(v.names[c])) && CleanFrom(v, c + 1)
  {
    hide Clean, CleanString;
  }

  /** Reading a written container from its child c on. */
  lemma {:induction false} RestBack(t: string, comments: bool, o: Options, v: Json, c: nat, indent: nat, i: nat)
    requires IsContainer(v) && Exact(v) && c <= |v.items| && c <= LENGTH_MAX
    requires Has(t, Rest(o, v, c, indent), i)
    ensures Reading(t, comments, i, v, c, c > 0)
         == if CleanFrom(v, c) then Ok(v, i + |Rest(o, v, c, indent)|) else Fail
    decreases v, 0, |v.items| - c
  {
    hide At, IsSpace;
    hide Text, Value, Skip, Reading, Separator, Label;
    hide Clean, CleanFrom, CleanString, Ending, Has, Exact, StartsValue;
    ExactChild(v, c);
    if c == |v.items| {
      EndingBack(t, comments, o, v, indent, i, c > 0);
      assert CleanFrom(v, c) by { NoneLeft(v); }
    } else {
      hide Rest;
      var sep, tag := Separator(o, c, indent), Label(o, v, c);
      var text, rest := Text(o, v.items[c], indent), Rest(o, v, c + 1, indent);
      RestSplit(o, v, c, indent);
      TextStarts(o, v.items[c], indent);
      RestStarts(o, v, c + 1, indent);
      HasPart(t, i, sep, tag + (text + rest));
      SeparatorBack(t, comments, o, v, c, indent, i);
      var p := i + |sep|;
      HasPart(t, p, tag, text + rest);
      HasPart(t, p + |tag|, text, rest);
      HasChar(t, rest, p + |tag| + |text|, 0);
      ValueBack(t, comments, o, v.items[c], indent, p + |tag|);
      ChildBack(t, comments, o, v, c, text + rest, p);
      CleanStep(v, c);
      if c < LENGTH_MAX {
        RestBack(t, comments, o, v, c + 1, indent, p + |tag| + |text|);
      } else {
        TooMany(v, c);
      }
    }
  }

  lemma ExactChild(v: Json, c: nat)
    requires IsContainer(v) && Exact(v) && c <= |v.items|
    ensures v.Obj? ==> |v.names| == |v.items|
    ensures c < |v.items| ==> Exact(v.items[c])
  {
  }

  lemma PrintableChild(v: Json, c: nat)
    requires IsContainer(v) && Printable(v) && c <= |v.items|
    ensures v.Obj? ==> |v.names| == |v.items|
    ensures c < |v.items| ==> Printable(v.items[c])
  {
  }

  lemma NoneLeft(v: Json)
    requires IsContainer(v) && |v.items| <= LENGTH_MAX && (v.Obj? ==> |v.names| == |v.items|)
    ensures CleanFrom(v, |v.items|)
  {
  }

  lemma TooMany(v: Json, c: nat)
    requires IsContainer(v) && LENGTH_MAX <= c < |v.items|
    ensures !CleanFrom(v, c)
  {
  }

  /** Printing and then parsing gives the tree back, entry by entry, exactly when it
      is clean; otherwise the parser rejects the text. */
  lemma RoundTrip(comments: bool, o: Options, v: Json)
    requires Exact(v)
    ensures Document(Text(o, v, 0), comments) == if Clean(v) then Some(v) else None
    ensures SkipMark(Text(o, v, 0)) == Text(o, v, 0)
  {
    hide Text, Value, Clean, Exact, Skip, Has;
    var t := Text(o, v, 0);
    TextStarts(o, v, 0);
    HasAll(t);
    SkipStart(t, comments, 0);
    ValueBack(t, comments, o, v, 0, 0);
    SkipAtEnd(t, comments);
  }

  lemma SkipAtEnd(t: string, comments: bool)
    ensures Skip(t, comments, |t|) == Some(|t|)
  {
  }
}
