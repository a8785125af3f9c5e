/** The layout of written text, told from the text alone: a checker that goes from lexeme to
    lexeme, counts the open brackets, and asks for the exact characters in between. */
module JsonLayout {
  import opened Parts
  import opened JsonGrammar
  import opened JsonArena
  import opened JsonPrinter
  import JsonWalk

  // ---------------------------------------------------------------------- the checker

  predicate IsOpen(c: char) {
    c == '[' || c == '{'
  }

  predicate IsClose(c: char) {
    c == ']' || c == '}'
  }

  predicate IsBlank(c: char) {
    c == ' ' || c == '\t' || c == '\r' || c == '\n'
  }

  predicate IsStructure(c: char) {
    IsOpen(c) || IsClose(c) || c == ',' || c == ':'
  }

  /** Behind the closing quote of a string, from behind its opening quote; the length of the text
      and one more if it has none. */
  function StringEnd(t: string, i: nat): (j: nat)
    ensures j > i || j == |t| + 1
    ensures j <= |t| + 1
    decreases |t| - i
  {
    if i >= |t| then |t| + 1
    else if t[i] == '\\' then StringEnd(t, i + 2)
    else if t[i] == '"' then i + 1
    else StringEnd(t, i + 1)
  }

  /** Behind a number or a word. */
  function AtomEnd(t: string, i: nat): (j: nat)
    requires i <= |t|
    ensures i <= j <= |t|
    decreases |t| - i
  {
    if i == |t| || IsStructure(t[i]) || IsBlank(t[i]) || t[i] == '"' then i else AtomEnd(t, i + 1)
  }

  function LexemeEnd(t: string, i: nat): (j: nat)
    requires i < |t| && !IsBlank(t[i])
    ensures j > i
  {
    if t[i] == '"' then StringEnd(t, i + 1)
    else if IsStructure(t[i]) then i + 1
    else AtomEnd(t, i)
  }

  function BlankEnd(t: string, i: nat): (j: nat)
    requires i <= |t|
    ensures i <= j <= |t| && (j < |t| ==> !IsBlank(t[j]))
    decreases |t| - i
  {
    if i < |t| && IsBlank(t[i]) then BlankEnd(t, i + 1) else i
  }

  /** A line break and its indentation at a depth. */
  function Break(o: Options, depth: nat): string {
    (if o.crlf then "\r\n" else "\n") + seq(o.indentSize * depth, _ => if o.useTabs then '\t' else ' ')
  }

  /** The characters between two lexemes that begin with x and y, `depth` brackets being open. */
  function Gap(o: Options, x: char, y: char, depth: nat): string
    requires IsClose(y) ==> depth > 0
  {
    if IsOpen(x) && IsClose(y) then ""
    else
      match o.layout
      case Multiline =>
        if IsClose(y) then Break(o, depth - 1)
        else if IsOpen(x) || x == ',' then Break(o, depth)
        else if x == ':' && !o.noSpaceAfterColon then " "
        else ""
      case SingleLine =>
        if (IsOpen(x) || IsClose(y)) && !o.packBrackets then " "
        else if x == ',' && !o.noSpaceAfterComma then " "
        else if x == ':' && !o.noSpaceAfterColon then " "
        else ""
      case Packed => ""
  }

  /** Lexemes hold no raw line breaks or tabs. */
  predicate Plain(t: string, i: nat, j: nat)
    requires j <= |t|
  {
    forall p | i <= p < j :: t[p] != '\n' && t[p] != '\r' && t[p] != '\t'
  }

  /** From the lexeme at i on, `depth` brackets being open in front of it. */
  predicate LaidOut(o: Options, t: string, i: nat, depth: nat)
    decreases |t| - i, 1
  {
    && i < |t| && !IsBlank(t[i]) && (IsClose(t[i]) ==> depth > 0)
    && var j := LexemeEnd(t, i);
    && j <= |t| && Plain(t, i, j)
    && LaidBehind(o, t, j, t[i], if IsOpen(t[i]) then depth + 1 else if IsClose(t[i]) then depth - 1 else depth)
  }

  /** Behind a lexeme that begins with x and ends at j. */
  predicate LaidBehind(o: Options, t: string, j: nat, x: char, depth: nat)
    requires j <= |t|
    decreases |t| - j, 2
  {
    if j == |t| then depth == 0
    else
      var k := BlankEnd(t, j);
      && k < |t| && (IsClose(t[k]) ==> depth > 0)
      && t[j..k] == Gap(o, x, t[k], depth)
      && LaidOut(o, t, k, depth)
  }

  predicate WellLaid(o: Options, t: string) {
    LaidOut(o, t, 0, 0)
  }

  // --------------------------------------------------------------- steps of the checker

  lemma {:induction false} BlanksEnd(t: string, j: nat, g: string)
    requires Has(t, g, j) && (forall c | c in g :: IsBlank(c)) && j + |g| < |t| && !IsBlank(t[j + |g|])
    ensures BlankEnd(t, j) == j + |g|
    decreases |g|
  {
    if g != "" {
      assert t[j + 0] == g[0] && g[0] in g;
      assert g == [g[0]] + g[1..];
      HasPart(t, j, [g[0]], g[1..]);
      BlanksEnd(t, j + 1, g[1..]);
    }
  }

  lemma BlankGap(o: Options, x: char, y: char, depth: nat)
    requires IsClose(y) ==> depth > 0
    ensures forall c | c in Gap(o, x, y, depth) :: IsBlank(c)
  {
    hide Break;
    BlankBreak(o, depth);
    if depth > 0 {
      BlankBreak(o, depth - 1);
    }
  }

  lemma BlankBreak(o: Options, depth: nat)
    ensures forall c | c in Break(o, depth) :: IsBlank(c)
  {
  }

  /** The gap in front of a lexeme that is laid out. */
  lemma GapLaid(o: Options, t: string, j: nat, x: char, depth: nat, g: string)
    requires Has(t, g, j) && j + |g| < |t| && LaidOut(o, t, j + |g|, depth)
    requires var y := t[j + |g|]; (IsClose(y) ==> depth > 0) && g == Gap(o, x, y, depth)
    ensures j < |t| && LaidBehind(o, t, j, x, depth)
  {
    hide Gap, LaidOut;
    var k := j + |g|;
    StartsLexeme(o, t, k, depth);
    BlankGap(o, x, t[k], depth);
    BlanksEnd(t, j, g);
    Sliced(t, g, j);
  }

  lemma StartsLexeme(o: Options, t: string, k: nat, depth: nat)
    requires LaidOut(o, t, k, depth)
    ensures k < |t| && !IsBlank(t[k])
  {
  }

  lemma Sliced(t: string, g: string, j: nat)
    requires Has(t, g, j)
    ensures j + |g| <= |t| && t[j..j + |g|] == g
  {
  }

  /** One character of structure. */
  lemma StructureLaid(o: Options, t: string, i: nat, depth: nat)
    requires i < |t| && IsStructure(t[i]) && (IsClose(t[i]) ==> depth > 0)
    requires LaidBehind(o, t, i + 1, t[i],
                        if IsOpen(t[i]) then depth + 1 else if IsClose(t[i]) then depth - 1 else depth)
    ensures LaidOut(o, t, i, depth)
  {
    hide LaidBehind;
  }

  /** What a gap is depends on the kind of the lexeme before it only. */
  lemma SameKind(o: Options, t: string, j: nat, x: char, x': char, depth: nat)
    requires j <= |t| && LaidBehind(o, t, j, x, depth)
    requires !IsOpen(x) && x != ',' && x != ':' && !IsOpen(x') && x' != ',' && x' != ':'
    ensures LaidBehind(o, t, j, x', depth)
  {
    hide LaidOut;
  }

  // ------------------------------------------------------------------- written lexemes

  predicate IsAtom(c: char) {
    !IsStructure(c) && !IsBlank(c) && c != '"'
  }

  predicate AllAtom(x: string) {
    forall i | 0 <= i < |x| :: IsAtom(x[i])
  }

  /** No number or word goes on at i. */
  predicate AtomEnds(t: string, i: nat) {
    i < |t| ==> !IsAtom(t[i])
  }

  lemma {:induction false} AtomRead(t: string, i: nat, x: string)
    requires Has(t, x, i) && AllAtom(x) && AtomEnds(t, i + |x|)
    ensures i + |x| <= |t| && AtomEnd(t, i) == i + |x| && Plain(t, i, i + |x|)
    decreases |x|
  {
    if x != "" {
      assert t[i + 0] == x[0];
      assert x == [x[0]] + x[1..];
      HasPart(t, i, [x[0]], x[1..]);
      AtomRead(t, i + 1, x[1..]);
    }
  }

  lemma AtomLaid(o: Options, t: string, i: nat, x: string, depth: nat)
    requires Has(t, x, i) && x != "" && AllAtom(x) && AtomEnds(t, i + |x|) && i + |x| <= |t|
    requires LaidBehind(o, t, i + |x|, '"', depth)
    ensures LaidOut(o, t, i, depth) && !IsClose(t[i])
  {
    hide LaidBehind, AtomEnd, Has, AllAtom, Plain;
    AtomRead(t, i, x);
    FirstOfAtom(t, i, x);
    SameKind(o, t, i + |x|, '"', t[i], depth);
  }

  lemma FirstOfAtom(t: string, i: nat, x: string)
    requires Has(t, x, i) && x != "" && AllAtom(x)
    ensures i < |t| && IsAtom(t[i])
  {
    assert t[i + 0] == x[0];
  }

  lemma {:induction false} StringRead(t: string, i: nat, s: string)
    requires Has(t, Terminated(s), i)
    ensures var j := i + |Terminated(s)|; j <= |t| && StringEnd(t, i) == j && Plain(t, i, j)
    decreases |s|
  {
    hide StringEnd, EscapedChar, Terminated, Has;
    HasInside(t, Terminated(s), i);
    if s == "" {
      QuoteRead(t, i);
    } else {
      TerminatedSplit(t, i, s);
      StringRead(t, i + |EscapedChar(s[0])|, s[1..]);
      CharRead(t, i, s[0]);
    }
  }

  lemma QuoteRead(t: string, i: nat)
    requires Has(t, Terminated(""), i)
    ensures |Terminated("")| == 1 && i < |t| && StringEnd(t, i) == i + 1 && Plain(t, i, i + 1)
  {
    assert Terminated("") == "\"";
    HasChar(t, "\"", i, 0);
  }

  /** One written character is one step, and no raw line break. */
  lemma CharRead(t: string, i: nat, c: char)
    requires Has(t, EscapedChar(c), i)
    ensures var j := i + |EscapedChar(c)|; i < j <= |t| && StringEnd(t, i) == StringEnd(t, j) && Plain(t, i, j)
  {
    var e := EscapedChar(c);
    HasChar(t, e, i, 0);
    if |e| == 2 {
      HasChar(t, e, i, 1);
    }
  }

  lemma QuotedLaid(o: Options, t: string, i: nat, s: string, depth: nat)
    requires Has(t, Quoted(s), i) && i + |Quoted(s)| <= |t| && LaidBehind(o, t, i + |Quoted(s)|, '"', depth)
    ensures LaidOut(o, t, i, depth) && t[i] == '"'
  {
    hide LaidBehind, StringEnd, Terminated, Quoted, Has;
    QuotedIs(s);
    HasPart(t, i, "\"", Terminated(s));
    HasChar(t, "\"", i, 0);
    StringRead(t, i + 1, s);
  }

  lemma DigitsAtom(n: nat)
    ensures AllAtom(Digits(n))
  {
  }

  lemma IntAtom(n: int)
    ensures AllAtom(IntText(n)) && IntText(n) != ""
  {
    hide Digits;
    DigitsAtom(if n < 0 then -n else n);
  }

  lemma DoubleAtom(g: string)
    requires PercentG(g)
    ensures AllAtom(DoubleText(g)) && DoubleText(g) != ""
  {
    var k := Find(g, ',');
    forall i | 0 <= i < |g|
      ensures IsAtom(g[i]) <==> g[i] != ','
      ensures g[i] == ',' ==> i == k
    {
      assert g[i] in g;
      assert i < k ==> g[i] == g[..k][i];
    }
    hide Find;
  }

  // ---------------------------------------------------------------------- written values

  lemma BreakIs(o: Options, depth: nat)
    ensures Newline(o, depth * o.indentSize) == if o.layout.Multiline? then Break(o, depth) else ""
  {
    assert depth * o.indentSize == o.indentSize * depth;
  }

  lemma FirstBreak(o: Options, depth: nat, x: char, y: char)
    requires IsOpen(x) && !IsClose(y)
    ensures Gap(o, x, y, depth) == Blank(SpacesAroundBrackets(o)) + Newline(o, depth * o.indentSize)
  {
    hide Break, Newline;
    BreakIs(o, depth);
  }

  lemma CommaBreak(o: Options, depth: nat, y: char)
    requires !IsClose(y)
    ensures Gap(o, ',', y, depth) == Blank(SpacesAfterCommas(o)) + Newline(o, depth * o.indentSize)
  {
    hide Break, Newline;
    BreakIs(o, depth);
  }

  lemma LastBreak(o: Options, depth: nat, x: char, y: char)
    requires IsClose(y) && !IsOpen(x) && x != ',' && x != ':' && depth > 0
    ensures Gap(o, x, y, depth) == Newline(o, (depth - 1) * o.indentSize) + Blank(SpacesAroundBrackets(o))
  {
    hide Break, Newline;
    BreakIs(o, depth - 1);
  }

  lemma ColonBlank(o: Options, depth: nat, y: char)
    requires !IsClose(y)
    ensures Gap(o, ':', y, depth) == Blank(SpacesAfterColons(o))
  {
    hide Break;
  }

  lemma NoGap(o: Options, depth: nat, y: char)
    requires y == ',' || y == ':'
    ensures Gap(o, '"', y, depth) == ""
  {
  }

  /** A lexeme with no gap in front of it. */
  lemma NextLaid(o: Options, t: string, i: nat, depth: nat)
    requires i < |t| && (t[i] == ',' || t[i] == ':') && LaidOut(o, t, i, depth)
    ensures LaidBehind(o, t, i, '"', depth)
  {
    hide LaidOut, Gap;
    NoGap(o, depth, t[i]);
    GapLaid(o, t, i, '"', depth, "");
  }

  /** The name of an entry, its colon and the blank behind it. */
  lemma LabelLaid(o: Options, t: string, i: nat, v: Json, c: nat, depth: nat)
    requires v.Obj? && c < |v.names| && Has(t, Label(o, v, c), i)
    requires var q := i + |Label(o, v, c)|; q < |t| && LaidOut(o, t, q, depth) && !IsClose(t[q])
    ensures i < |t| && LaidOut(o, t, i, depth) && t[i] == '"'
  {
    hide LaidOut, LaidBehind, Quoted, Has, Gap, Label;
    var name, b := Quoted(v.names[c]), Blank(SpacesAfterColons(o));
    LabelIs(o, v, c);
    HasPart(t, i, name, ":" + b);
    var k := i + |name|;
    HasPart(t, k, ":", b);
    HasChar(t, ":", k, 0);
    HasInside(t, ":", k);
    ColonBlank(o, depth, t[k + 1 + |b|]);
    GapLaid(o, t, k + 1, ':', depth, b);
    StructureLaid(o, t, k, depth);
    NextLaid(o, t, k, depth);
    QuotedLaid(o, t, i, v.names[c], depth);
  }

  /** A leaf of the tree. */
  lemma LeafLaid(o: Options, t: string, i: nat, v: Json, indent: nat, depth: nat)
    requires Printable(v) && !IsContainer(v) && Has(t, Text(o, v, indent), i)
    requires var e := i + |Text(o, v, indent)|; e <= |t| && AtomEnds(t, e) && LaidBehind(o, t, e, '"', depth)
    ensures i < |t| && LaidOut(o, t, i, depth) && !IsClose(t[i])
  {
    hide LaidBehind, LaidOut, Quoted, IntText, DoubleText, Has, AllAtom, PercentG;
    var x := Text(o, v, indent);
    match v
    case Str(s) => QuotedLaid(o, t, i, s, depth); StartsLexeme(o, t, i, depth);
    case Int(n) => IntAtom(n); AtomLaid(o, t, i, x, depth); StartsLexeme(o, t, i, depth);
    case Double(g) => DoubleAtom(g); AtomLaid(o, t, i, x, depth); StartsLexeme(o, t, i, depth);
    case _ => WordAtom(v, x); AtomLaid(o, t, i, x, depth); StartsLexeme(o, t, i, depth);
  }

  lemma WordAtom(v: Json, x: string)
    requires x == "null" || x == "true" || x == "false"
    ensures AllAtom(x)
  {
  }

  lemma EmptyLaid(o: Options, t: string, i: nat, v: Json, depth: nat)
    requires IsContainer(v) && Has(t, [Opening(v), Closing(v)], i)
    requires i + 2 <= |t| && LaidBehind(o, t, i + 2, '"', depth)
    ensures i < |t| && LaidOut(o, t, i, depth) && !IsClose(t[i])
  {
    hide LaidBehind, LaidOut, Gap;
    var x := [Opening(v), Closing(v)];
    HasChar(t, x, i, 0);
    HasChar(t, x, i, 1);
    SameKind(o, t, i + 2, '"', t[i + 1], depth);
    StructureLaid(o, t, i + 1, depth + 1);
    NothingBetween(o, t[i], t[i + 1], depth + 1);
    GapLaid(o, t, i + 1, t[i], depth + 1, "");
    StructureLaid(o, t, i, depth);
  }

  lemma NothingBetween(o: Options, x: char, y: char, depth: nat)
    requires IsOpen(x) && IsClose(y) && depth > 0
    ensures Gap(o, x, y, depth) == ""
  {
  }

  /** What closes a container with children. */
  lemma EndingLaid(o: Options, t: string, i: nat, v: Json, depth: nat)
    requires IsContainer(v) && depth > 0 && Has(t, Ending(o, v, depth * o.indentSize), i)
    requires var e := i + |Ending(o, v, depth * o.indentSize)|; e <= |t| && LaidBehind(o, t, e, '"', depth - 1)
    ensures i <= |t| && LaidBehind(o, t, i, '"', depth) && AtomEnds(t, i)
  {
    hide LaidBehind, LaidOut, Has, Gap, Newline, Blank;
    JsonWalk.DepthLess(o, depth);
    var g := Newline(o, (depth - 1) * o.indentSize) + Blank(SpacesAroundBrackets(o));
    assert Ending(o, v, depth * o.indentSize) == g + [Closing(v)];
    HasPart(t, i, g, [Closing(v)]);
    var k := i + |g|;
    HasChar(t, [Closing(v)], k, 0);
    HasInside(t, [Closing(v)], k);
    SameKind(o, t, k + 1, '"', t[k], depth - 1);
    StructureLaid(o, t, k, depth);
    LastBreak(o, depth, '"', t[k]);
    GapLaid(o, t, i, '"', depth, g);
    GapEnds(o, t, i, '"', depth, g);
  }

  /** A gap, or the structure behind it, ends a number. */
  lemma GapEnds(o: Options, t: string, i: nat, x: char, depth: nat, g: string)
    requires Has(t, g, i) && i + |g| < |t| && IsStructure(t[i + |g|]) && (IsClose(t[i + |g|]) ==> depth > 0)
    requires g == Gap(o, x, t[i + |g|], depth)
    ensures AtomEnds(t, i)
  {
    hide Gap;
    BlankGap(o, x, t[i + |g|], depth);
    if g != "" {
      HasChar(t, g, i, 0);
      assert g[0] in g;
    }
  }

  /** A written value is laid out wherever it stands at its depth. */
  lemma {:induction false} ValueLaid(o: Options, t: string, i: nat, v: Json, depth: nat)
    requires Printable(v) && Has(t, Text(o, v, depth * o.indentSize), i)
    requires var e := i + |Text(o, v, depth * o.indentSize)|;
             && e <= |t| && AtomEnds(t, e)
             && LaidBehind(o, t, e, '"', depth)
    ensures i < |t| && LaidOut(o, t, i, depth) && !IsClose(t[i])
    decreases v, 2, 0, 0
  {
    hide LaidBehind, LaidOut, Has, Gap, Text, Rest, Newline, Blank, Printable;
    var indent := depth * o.indentSize;
    if !IsContainer(v) {
      LeafLaid(o, t, i, v, indent, depth);
    } else if v.items == [] {
      EmptyText(o, v, indent);
      EmptyLaid(o, t, i, v, depth);
    } else {
      var b := Blank(SpacesAroundBrackets(o));
      assert indent + o.indentSize == (depth + 1) * o.indentSize;
      var nl, child := Newline(o, indent + o.indentSize), Child(o, v, 0, depth + 1);
      TextSplit(o, v, indent);
      RestSplit(o, v, 0, indent + o.indentSize);
      FirstSplit(o, v, depth + 1);
      HasPart(t, i, [Opening(v)], b + (nl + child));
      HasChar(t, [Opening(v)], i, 0);
      FourthPart(b, nl, child);
      HasPart(t, i + 1, b + nl, child);
      ChildLaid(o, t, i + 1 + |b + nl|, v, 0, depth + 1);
      FirstBreak(o, depth + 1, t[i], t[i + 1 + |b + nl|]);
      GapLaid(o, t, i + 1, t[i], depth + 1, b + nl);
      StructureLaid(o, t, i, depth);
    }
  }

  lemma FourthPart(b: string, nl: string, child: string)
    ensures b + (nl + child) == b + nl + child
  {
  }

  /** Child c with its label, and everything behind it up to the end of the container. */
  function Child(o: Options, v: Json, c: nat, depth: nat): string
    requires IsContainer(v) && c < |v.items|
  {
    Label(o, v, c) + (Text(o, v.items[c], depth * o.indentSize) + Rest(o, v, c + 1, depth * o.indentSize))
  }

  lemma FirstSplit(o: Options, v: Json, depth: nat)
    requires IsContainer(v) && v.items != []
    ensures Rest(o, v, 0, depth * o.indentSize) == Newline(o, depth * o.indentSize) + Child(o, v, 0, depth)
  {
    hide Newline, Label, Text;
    RestSplit(o, v, 0, depth * o.indentSize);
    assert Separator(o, 0, depth * o.indentSize) == Newline(o, depth * o.indentSize);
    hide Rest;
  }

  lemma {:induction false} ChildLaid(o: Options, t: string, p: nat, v: Json, c: nat, depth: nat)
    requires IsContainer(v) && Printable(v) && c < |v.items| && depth > 0 && Has(t, Child(o, v, c, depth), p)
    requires var e := p + |Child(o, v, c, depth)|; e <= |t| && LaidBehind(o, t, e, '"', depth - 1)
    ensures p < |t| && LaidOut(o, t, p, depth) && !IsClose(t[p])
    decreases v, 1, |v.items| - c, 0
  {
    hide LaidBehind, LaidOut, Has, Gap, Text, Rest, Label, Printable;
    var indent := depth * o.indentSize;
    var tag, text, rest := Label(o, v, c), Text(o, v.items[c], indent), Rest(o, v, c + 1, indent);
    HasPart(t, p, tag, text + rest);
    HasPart(t, p + |tag|, text, rest);
    PrintableChild(v, c);
    RestLaid(o, t, p + |tag| + |text|, v, c + 1, depth);
    ValueLaid(o, t, p + |tag|, v.items[c], depth);
    if v.Obj? {
      LabelLaid(o, t, p, v, c, depth);
    } else {
      NoLabel(o, v, c);
    }
  }

  /** Behind child c - 1: a comma and the next child, or the end of the container. */
  lemma {:induction false} RestLaid(o: Options, t: string, i: nat, v: Json, c: nat, depth: nat)
    requires IsContainer(v) && Printable(v) && 0 < c <= |v.items| && depth > 0
    requires Has(t, Rest(o, v, c, depth * o.indentSize), i)
    requires var e := i + |Rest(o, v, c, depth * o.indentSize)|; e <= |t| && LaidBehind(o, t, e, '"', depth - 1)
    ensures i <= |t| && LaidBehind(o, t, i, '"', depth) && AtomEnds(t, i)
    decreases v, 1, |v.items| - c, 1
  {
    hide LaidBehind, LaidOut, Has, Gap, Text, Rest, Child, Printable, Newline, Blank, Ending;
    if c == |v.items| {
      RestIsEnding(o, v, depth * o.indentSize);
      EndingLaid(o, t, i, v, depth);
    } else {
      var g, child := Blank(SpacesAfterCommas(o)) + Newline(o, depth * o.indentSize), Child(o, v, c, depth);
      NextSplit(o, v, c, depth);
      HasPart(t, i, ",", g + child);
      HasChar(t, ",", i, 0);
      HasInside(t, ",", i);
      HasPart(t, i + 1, g, child);
      ChildLaid(o, t, i + 1 + |g|, v, c, depth);
      CommaBreak(o, depth, t[i + 1 + |g|]);
      GapLaid(o, t, i + 1, ',', depth, g);
      StructureLaid(o, t, i, depth);
      NextLaid(o, t, i, depth);
    }
  }

  lemma RestIsEnding(o: Options, v: Json, indent: nat)
    requires IsContainer(v)
    ensures Rest(o, v, |v.items|, indent) == Ending(o, v, indent)
  {
    hide Ending;
  }

  lemma NextSplit(o: Options, v: Json, c: nat, depth: nat)
    requires IsContainer(v) && 0 < c < |v.items|
    ensures Rest(o, v, c, depth * o.indentSize)
         == "," + (Blank(SpacesAfterCommas(o)) + Newline(o, depth * o.indentSize) + Child(o, v, c, depth))
  {
    hide Newline, Label, Text, Blank;
    RestSplit(o, v, c, depth * o.indentSize);
    var b, nl := Blank(SpacesAfterCommas(o)), Newline(o, depth * o.indentSize);
    assert Separator(o, c, depth * o.indentSize) == "," + b + nl;
    hide Rest;
    CommaParts(b, nl, Child(o, v, c, depth));
  }

  lemma CommaParts(b: string, nl: string, child: string)
    ensures "," + b + nl + child == "," + (b + nl + child)
  {
  }

  /** The text of a tree is laid out as its options say, in every character. */
  lemma TextLaid(o: Options, v: Json)
    requires Printable(v)
    ensures WellLaid(o, Text(o, v, 0))
  {
    hide Text, Has, LaidOut, LaidBehind, Printable;
    var t := Text(o, v, 0);
    assert 0 * o.indentSize == 0;
    HasAll(t);
    NothingLeft(o, t);
    ValueLaid(o, t, 0, v, 0);
  }

  lemma NothingLeft(o: Options, t: string)
    ensures LaidBehind(o, t, |t|, '"', 0)
  {
  }

  // ------------------------------------------------------------------ line breaks anywhere

  /** At p the text has the line breaks that the options ask for. */
  predicate BreakAt(o: Options, t: string, p: nat)
    requires p < |t|
  {
    && (t[p] == '\n' ==> o.layout.Multiline? && (o.crlf <==> p > 0 && t[p - 1] == '\r'))
    && (t[p] == '\r' ==> o.layout.Multiline? && o.crlf && p + 1 < |t| && t[p + 1] == '\n')
    && (t[p] == '\t' ==> o.layout.Multiline? && o.useTabs)
  }

  lemma BreakShape(o: Options, depth: nat, p: nat)
    requires p < |Break(o, depth)|
    ensures var g := Break(o, depth);
            && (g[p] == '\n' ==> if o.crlf then p == 1 && g[0] == '\r' else p == 0)
            && (g[p] == '\r' ==> o.crlf && p == 0 && |g| > 1 && g[1] == '\n')
            && (g[p] == '\t' ==> o.useTabs)
  {
  }

  lemma GapShape(o: Options, x: char, y: char, depth: nat, p: nat)
    requires (IsClose(y) ==> depth > 0) && p < |Gap(o, x, y, depth)|
    ensures var g := Gap(o, x, y, depth);
            && (g[p] == '\n' ==> o.layout.Multiline? && if o.crlf then p == 1 && g[0] == '\r' else p == 0)
            && (g[p] == '\r' ==> o.layout.Multiline? && o.crlf && p == 0 && |g| > 1 && g[1] == '\n')
            && (g[p] == '\t' ==> o.layout.Multiline? && o.useTabs)
  {
    hide Break;
    if o.layout.Multiline? {
      if p < |Break(o, depth)| {
        BreakShape(o, depth, p);
      }
      if depth > 0 && p < |Break(o, depth - 1)| {
        BreakShape(o, depth - 1, p);
      }
    }
  }

  /** What a gap holds, behind a character that is no carriage return. */
  lemma GapBreaks(o: Options, t: string, j: nat, k: nat, x: char, depth: nat, p: nat)
    requires 0 < j <= p < k < |t| && t[j - 1] != '\r' && (IsClose(t[k]) ==> depth > 0)
    requires t[j..k] == Gap(o, x, t[k], depth)
    ensures BreakAt(o, t, p)
  {
    hide Gap;
    GapShape(o, x, t[k], depth, p - j);
    var g := t[j..k];
    assert t[p] == g[p - j] && (p > j ==> t[p - 1] == g[p - j - 1]) && (p + 1 < k ==> t[p + 1] == g[p + 1 - j]);
  }

  lemma {:induction false} BreaksFrom(o: Options, t: string, i: nat, depth: nat, p: nat)
    requires LaidOut(o, t, i, depth) && i <= p < |t|
    ensures BreakAt(o, t, p)
    decreases |t| - i
  {
    hide LaidOut, Gap;
    LexemeLaid(o, t, i, depth);
    var j := LexemeEnd(t, i);
    if p >= j {
      var x, d := t[i], if IsOpen(t[i]) then depth + 1 else if IsClose(t[i]) then depth - 1 else depth;
      var k := BlankEnd(t, j);
      if p < k {
        GapBreaks(o, t, j, k, x, d, p);
      } else {
        BreaksFrom(o, t, k, d, p);
      }
    }
  }

  lemma LexemeLaid(o: Options, t: string, i: nat, depth: nat)
    requires LaidOut(o, t, i, depth)
    ensures i < |t| && !IsBlank(t[i]) && (IsClose(t[i]) ==> depth > 0)
    ensures var j := LexemeEnd(t, i);
            && i < j <= |t| && Plain(t, i, j)
            && LaidBehind(o, t, j, t[i], if IsOpen(t[i]) then depth + 1 else if IsClose(t[i]) then depth - 1 else depth)
  {
    hide LaidBehind, LexemeEnd;
  }

  /** With CRLF every line feed of a written text has a carriage return directly in front of
      it, and there is no other; without CRLF there is none, and in one line no break at all. */
  lemma BreaksPaired(o: Options, v: Json, p: nat)
    requires Printable(v) && p < |Text(o, v, 0)|
    ensures BreakAt(o, Text(o, v, 0), p)
  {
    hide Text, LaidOut, BreakAt;
    TextLaid(o, v);
    BreaksFrom(o, Text(o, v, 0), 0, 0, p);
  }
}
