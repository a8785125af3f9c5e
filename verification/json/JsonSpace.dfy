/** White space and comments in pieces, and where a slash opens no comment. */
module JsonSpace {
  import opened Wrappers
  import opened Parts
  import opened JsonGrammar
  import opened JsonPrinter

  /** A blank character, a comment up to the end of its line, or one up to its closing mark. */
  datatype Space =
    | NoSpace
    | White(c: char, more: Space)
    | LineNote(text: string, end: char, more: Space)
    | BlockNote(text: string, more: Space)

  function SpaceText(s: Space): string {
    match s
    case NoSpace => ""
    case White(c, more) => [c] + SpaceText(more)
    case LineNote(text, end, more) => "//" + (text + ([end] + SpaceText(more)))
    case BlockNote(text, more) => "/*" + (text + ("*/" + SpaceText(more)))
  }

  /** A line ends at the first carriage return or line feed, a block at the first closing mark. */
  predicate SpaceOk(s: Space) {
    match s
    case NoSpace => true
    case White(c, more) => (c == ' ' || c == '\t' || c == '\n' || c == '\r') && SpaceOk(more)
    case LineNote(text, end, more) => LineText(text) && (end == '\n' || end == '\r') && SpaceOk(more)
    case BlockNote(text, more) => '\0' !in text && Unmarked(text) && SpaceOk(more)
  }

  predicate LineText(text: string) {
    '\n' !in text && '\r' !in text && '\0' !in text
  }

  predicate Unmarked(text: string) {
    forall i | 0 <= i < |text| - 1 :: !(text[i] == '*' && text[i + 1] == '/')
  }

  /** There are no comments. */
  predicate Quiet(s: Space) {
    match s
    case NoSpace => true
    case White(_, more) => Quiet(more)
    case _ => false
  }

  /** A comment stands first. */
  predicate NoteFirst(s: Space) {
    s.LineNote? || s.BlockNote?
  }

  // --------------------------------------------------------------------- it is skipped

  /** Three parts in a row, the last of them being what follows. */
  lemma FourParts(t: string, i: nat, a: string, b: string, c: string, d: string)
    requires Has(t, a + (b + (c + d)), i)
    ensures Has(t, a, i) && Has(t, b, i + |a|) && Has(t, c, i + |a| + |b|) && Has(t, d, i + |a| + |b| + |c|)
    ensures |a + (b + (c + d))| == |a| + |b| + |c| + |d|
  {
    hide Has;
    HasPart(t, i, a, b + (c + d));
    HasPart(t, i + |a|, b, c + d);
    HasPart(t, i + |a| + |b|, c, d);
  }

  lemma {:induction false} LineRead(t: string, i: nat, text: string)
    requires Has(t, text, i) && LineText(text)
    requires i + |text| < |t| ==> t[i + |text|] == '\n' || t[i + |text|] == '\r'
    ensures i + |text| <= |t| && LineEnd(t, i) == i + |text|
    decreases |text|
  {
    if text != "" {
      assert t[i + 0] == text[0] && text[0] in text;
      assert text == [text[0]] + text[1..];
      HasPart(t, i, [text[0]], text[1..]);
      LineRead(t, i + 1, text[1..]);
    }
  }

  lemma {:induction false} BlockRead(t: string, i: nat, text: string)
    requires Has(t, text, i) && '\0' !in text && Unmarked(text) && Has(t, "*/", i + |text|)
    ensures i + |text| + 2 <= |t| && BlockEnd(t, i) == Some(i + |text| + 2)
    decreases |text|
  {
    HasChar(t, "*/", i + |text|, 0);
    HasChar(t, "*/", i + |text|, 1);
    HasInside(t, "*/", i + |text|);
    if text != "" {
      assert t[i + 0] == text[0] && text[0] in text;
      if |text| > 1 {
        assert t[i + 1] == text[1];
      }
      assert text == [text[0]] + text[1..];
      HasPart(t, i, [text[0]], text[1..]);
      BlockRead(t, i + 1, text[1..]);
    }
  }

  lemma SkipsWhite(t: string, comments: bool, i: nat, c: char)
    requires i < |t| && t[i] == c && (c == ' ' || c == '\t' || c == '\n' || c == '\r')
    ensures Skip(t, comments, i) == Skip(t, comments, i + 1)
  {
  }

  lemma SkipsLine(t: string, i: nat)
    requires i + 1 < |t| && t[i] == '/' && t[i + 1] == '/'
    ensures Skip(t, true, i) == Skip(t, true, LineEnd(t, i + 2))
  {
    hide LineEnd, BlockEnd;
  }

  lemma SkipsBlock(t: string, i: nat)
    requires i + 1 < |t| && t[i] == '/' && t[i + 1] == '*'
    ensures var e := BlockEnd(t, i + 2); Skip(t, true, i) == if e.None? then None else Skip(t, true, e.value)
  {
    hide LineEnd, BlockEnd;
  }

  /** Whatever the pieces are, what follows them is reached. */
  lemma {:induction false} SpaceRead(t: string, comments: bool, i: nat, s: Space)
    requires Has(t, SpaceText(s), i) && SpaceOk(s) && (comments || Quiet(s))
    ensures i + |SpaceText(s)| <= |t| && Skip(t, comments, i) == Skip(t, comments, i + |SpaceText(s)|)
    decreases s
  {
    hide Skip, Has, LineEnd, BlockEnd, LineText, Unmarked;
    HasInside(t, SpaceText(s), i);
    match s
    case NoSpace =>
    case White(c, more) =>
      HasPart(t, i, [c], SpaceText(more));
      HasChar(t, [c], i, 0);
      SkipsWhite(t, comments, i, c);
      SpaceRead(t, comments, i + 1, more);
    case LineNote(text, end, more) =>
      FourParts(t, i, "//", text, [end], SpaceText(more));
      HasChar(t, "//", i, 0);
      HasChar(t, "//", i, 1);
      HasChar(t, [end], i + 2 + |text|, 0);
      SkipsLine(t, i);
      LineRead(t, i + 2, text);
      SkipsWhite(t, comments, i + 2 + |text|, end);
      SpaceRead(t, comments, i + 3 + |text|, more);
    case BlockNote(text, more) =>
      FourParts(t, i, "/*", text, "*/", SpaceText(more));
      HasChar(t, "/*", i, 0);
      HasChar(t, "/*", i, 1);
      SkipsBlock(t, i);
      BlockRead(t, i + 2, text);
      SpaceRead(t, comments, i + 4 + |text|, more);
  }

  // --------------------------------------------------------------------- it is not

  /** Nowhere behind i does a closing mark stand. */
  predicate NoMarkBehind(t: string, i: nat) {
    forall k | i <= k < |t| - 1 :: !(t[k] == '*' && t[k + 1] == '/')
  }

  /** A slash that opens no comment: they are not enabled, another character follows, or the
      comment does not end. */
  predicate BadSlash(t: string, comments: bool, i: nat) {
    && i < |t| && t[i] == '/'
    && (!comments || i + 1 == |t| || (t[i + 1] != '/' && (t[i + 1] == '*' ==> NoMarkBehind(t, i + 2))))
  }

  lemma {:induction false} OpenBlock(t: string, i: nat)
    requires i <= |t| && NoMarkBehind(t, i)
    ensures BlockEnd(t, i) == None
    decreases |t| - i
  {
    if i < |t| {
      OpenBlock(t, i + 1);
    }
  }

  /** Nothing is skipped there, or nothing is behind it. */
  lemma SlashStops(t: string, comments: bool, i: nat)
    requires BadSlash(t, comments, i)
    ensures Skip(t, comments, i) == if comments then None else Some(i)
  {
    if comments && i + 1 < |t| && t[i + 1] == '*' {
      OpenBlock(t, i + 2);
    }
    hide BlockEnd, LineEnd;
  }
}
