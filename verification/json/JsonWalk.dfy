/** The walk over a tree with a cursor in every open container, on values: what is
    still to be written, measured and visited from a given point of the walk. */
module JsonWalk {
  import opened JsonGrammar
  import opened JsonArena
  import opened JsonPrinter

  /** An open container and the number of its children already entered. */
  datatype Level = Level(v: Json, c: nat)

  predicate LevelsOk(levels: seq<Level>) {
    forall k | 0 <= k < |levels| :: IsContainer(levels[k].v) && levels[k].c <= |levels[k].v.items|
  }

  /** The text still to be written after the innermost value is done. */
  function TextAfter(o: Options, levels: seq<Level>): string
    requires LevelsOk(levels)
  {
    if levels == [] then ""
    else
      var l := levels[|levels| - 1];
      Rest(o, l.v, l.c, |levels| * o.indentSize) + TextAfter(o, levels[..|levels| - 1])
  }

  /** Number of loop iterations that a value takes. */
  function Work(v: Json): nat
    decreases v, 1, 0
  {
    match v
    case Arr(items) => if items == [] then 1 else RestWork(v, 0)
    case Obj(_, items) => if items == [] then 1 else RestWork(v, 0)
    case _ => 1
  }

  function RestWork(v: Json, c: nat): nat
    requires IsContainer(v) && c <= |v.items|
    decreases v, 0, |v.items| - c
  {
    1 + if c == |v.items| then 0 else Work(v.items[c]) + RestWork(v, c + 1)
  }

  function WorkAfter(levels: seq<Level>): nat
    requires LevelsOk(levels)
  {
    if levels == [] then 0
    else RestWork(levels[|levels| - 1].v, levels[|levels| - 1].c) + WorkAfter(levels[..|levels| - 1])
  }

  // ------------------------------------------------------------------- measures

  /** What the measurer has counted: characters outside line breaks and indentation,
      line breaks, and the depths at which they occur. */
  datatype Count = Count(chars: nat, newlines: nat, indents: nat)

  function Plus(a: Count, b: Count): Count {
    Count(a.chars + b.chars, a.newlines + b.newlines, a.indents + b.indents)
  }

  const ZERO := Count(0, 0, 0)

  /** Three counts make up the goal. */
  predicate Sums(a: Count, b: Count, c: Count, goal: Count) {
    && a.chars + b.chars + c.chars == goal.chars
    && a.newlines + b.newlines + c.newlines == goal.newlines
    && a.indents + b.indents + c.indents == goal.indents
  }

  function CountOf(o: Options, v: Json, depth: nat): Count
    decreases v, 1, 0
  {
    match v
    case Null => Count(4, 0, 0)
    case Bool(b) => Count(if b then 4 else 5, 0, 0)
    case Int(n) => Count(|IntText(n)|, 0, 0)
    case Double(g) => Count(|g| + 2, 0, 0)
    case Str(s) => Count(2 + |Escaped(s)|, 0, 0)
    case Arr(items) => if items == [] then Count(2, 0, 0)
                       else Plus(Count(BracketSize(o), 0, 0), CountRest(o, v, 0, depth + 1))
    case Obj(_, items) => if items == [] then Count(2, 0, 0)
                          else Plus(Count(BracketSize(o), 0, 0), CountRest(o, v, 0, depth + 1))
  }

  function BracketSize(o: Options): nat {
    if SpacesAroundBrackets(o) then 2 else 1
  }

  function CommaSize(o: Options): nat {
    if SpacesAfterCommas(o) then 2 else 1
  }

  function ColonSize(o: Options): nat {
    if SpacesAfterColons(o) then 2 else 1
  }

  /** The count of what stands before child c: break and comma, then the label. */
  function CountBefore(o: Options, v: Json, c: nat, depth: nat): Count {
    var comma := if c == 0 then 0 else CommaSize(o);
    var name := if v.Obj? && c < |v.names| then 2 + ColonSize(o) + |Escaped(v.names[c])| else 0;
    Count(comma + name, 1, depth)
  }

  function CountRest(o: Options, v: Json, c: nat, depth: nat): Count
    requires IsContainer(v) && c <= |v.items| && depth > 0
    decreases v, 0, |v.items| - c
  {
    if c == |v.items| then Count(BracketSize(o), 1, depth - 1)
    else Plus(CountBefore(o, v, c, depth), Plus(CountOf(o, v.items[c], depth), CountRest(o, v, c + 1, depth)))
  }

  function CountAfter(o: Options, levels: seq<Level>): Count
    requires LevelsOk(levels)
  {
    if levels == [] then ZERO
    else
      var l := levels[|levels| - 1];
      Plus(CountRest(o, l.v, l.c, |levels|), CountAfter(o, levels[..|levels| - 1]))
  }

  /** The sum of length + 1 over the non-empty containers. */
  function Newlines(v: Json): nat
    decreases v, 1
  {
    if IsContainer(v) && v.items != [] then |v.items| + 1 + NewlinesIn(v.items) else 0
  }

  function NewlinesIn(items: seq<Json>): nat
    decreases items, 0
  {
    if items == [] then 0 else Newlines(items[0]) + NewlinesIn(items[1..])
  }

  /** Characters that are counted for doubles and not written: two are counted for each, for
      the ".0" that it may need. */
  function Slack(v: Json): nat
    decreases v, 1
  {
    match v
    case Double(g) => |g| + 2 - |DoubleText(g)|
    case Arr(items) => SlackIn(items)
    case Obj(_, items) => SlackIn(items)
    case _ => 0
  }

  function SlackIn(items: seq<Json>): nat
    decreases items, 0
  {
    if items == [] then 0 else Slack(items[0]) + SlackIn(items[1..])
  }

  /** Characters of one line break. */
  function BreakSize(o: Options): nat {
    if o.crlf then 2 else 1
  }

  /** Number of characters that a count stands for, each break indented exactly. */
  function Chars(o: Options, c: Count): nat {
    c.chars + if o.layout.Multiline? then c.newlines * BreakSize(o) + c.indents * o.indentSize else 0
  }

  /** The result of the measurer, from its counters: the final addition counts one
      indentation more for every line break. */
  function Total(o: Options, total: nat, newlines: nat, indents: nat): nat {
    total + if o.layout.Multiline? then newlines * (BreakSize(o) + o.indentSize) + indents * o.indentSize else 0
  }

  /** One indentation for each of some line breaks. */
  function ExtraIndents(o: Options, newlines: nat): nat {
    if o.layout.Multiline? then o.indentSize * newlines else 0
  }

  lemma CharsPlus(o: Options, a: Count, b: Count)
    ensures Chars(o, Plus(a, b)) == Chars(o, a) + Chars(o, b)
  {
    assert (a.newlines + b.newlines) * BreakSize(o) == a.newlines * BreakSize(o) + b.newlines * BreakSize(o);
    assert (a.indents + b.indents) * o.indentSize == a.indents * o.indentSize + b.indents * o.indentSize;
  }

  lemma NewlineLength(o: Options, depth: nat)
    ensures |Newline(o, depth * o.indentSize)| == Chars(o, Count(0, 1, depth))
  {
  }

  lemma CharsPlain(o: Options, n: nat, nl: nat, depth: nat)
    ensures Chars(o, Count(n, nl, depth)) == n + Chars(o, Count(0, nl, depth))
  {
  }

  /** The count of a value is exactly the length of its text, and two for each double that
      does not need them. */
  lemma {:induction false} CountIsLength(o: Options, v: Json, depth: nat)
    requires Printable(v)
    ensures |Text(o, v, depth * o.indentSize)| + Slack(v) == Chars(o, CountOf(o, v, depth))
    decreases v, 2
  {
    match v
    case Arr(items) => if items != [] { CountIsLengthContainer(o, v, depth); }
    case Obj(names, items) => if items != [] { CountIsLengthContainer(o, v, depth); }
    case _ => hide Escaped, Digits;
  }

  lemma {:induction false} CountIsLengthContainer(o: Options, v: Json, depth: nat)
    requires Printable(v) && IsContainer(v) && v.items != []
    ensures |Text(o, v, depth * o.indentSize)| + Slack(v) == Chars(o, CountOf(o, v, depth))
    decreases v, 1
  {
    hide Rest, CountRest, Chars, Plus, Printable, SlackIn;
    assert v.items[0..] == v.items;
    assert depth * o.indentSize + o.indentSize == (depth + 1) * o.indentSize;
    CountIsLengthRest(o, v, 0, depth + 1);
    CharsPlus(o, Count(BracketSize(o), 0, 0), CountRest(o, v, 0, depth + 1));
    assert Chars(o, Count(BracketSize(o), 0, 0)) == BracketSize(o) by { CharsOfPlain(o, BracketSize(o)); }
  }

  lemma CharsOfPlain(o: Options, n: nat)
    ensures Chars(o, Count(n, 0, 0)) == n
  {
  }

  lemma {:induction false} CountIsLengthRest(o: Options, v: Json, c: nat, depth: nat)
    requires Printable(v) && IsContainer(v) && c <= |v.items| && depth > 0
    ensures |Rest(o, v, c, depth * o.indentSize)| + SlackIn(v.items[c..]) == Chars(o, CountRest(o, v, c, depth))
    decreases v, 0, |v.items| - c
  {
    hide Text, CountOf, Chars, Plus, Newline, Escaped, Printable, Label, Slack, SlackIn;
    PrintableChild(v, c);
    SlackStep(v.items, c);
    if c == |v.items| {
      NewlineLength(o, depth - 1);
      DepthLess(o, depth);
      CharsPlain(o, BracketSize(o), 1, depth - 1);
    } else {
      NewlineLength(o, depth);
      CountIsLength(o, v.items[c], depth);
      CountIsLengthRest(o, v, c + 1, depth);
      var before := CountBefore(o, v, c, depth);
      CharsPlain(o, before.chars, 1, depth);
      LabelLength(o, v, c);
      CharsPlus(o, CountOf(o, v.items[c], depth), CountRest(o, v, c + 1, depth));
      CharsPlus(o, before, Plus(CountOf(o, v.items[c], depth), CountRest(o, v, c + 1, depth)));
    }
  }

  lemma SlackStep(items: seq<Json>, c: nat)
    requires c <= |items|
    ensures SlackIn(items[c..]) == if c == |items| then 0 else Slack(items[c]) + SlackIn(items[c + 1..])
  {
    hide Slack;
    if c < |items| {
      assert items[c..][0] == items[c] && items[c..][1..] == items[c + 1..];
    }
  }

  lemma LabelLength(o: Options, v: Json, c: nat)
    ensures |Label(o, v, c)| == if v.Obj? && c < |v.names| then 2 + ColonSize(o) + |Escaped(v.names[c])| else 0
  {
    hide Escaped;
  }

  lemma DepthLess(o: Options, depth: nat)
    requires depth > 0
    ensures depth * o.indentSize >= o.indentSize && depth * o.indentSize - o.indentSize == (depth - 1) * o.indentSize
  {
    assert depth * o.indentSize == (depth - 1) * o.indentSize + o.indentSize;
  }

  lemma {:induction false} NewlinesCounted(o: Options, v: Json, depth: nat)
    ensures CountOf(o, v, depth).newlines == Newlines(v)
    decreases v, 1, 0
  {
    hide Escaped, Digits;
    if IsContainer(v) && v.items != [] {
      NewlinesCountedRest(o, v, 0, depth + 1);
      assert v.items[0..] == v.items;
    }
  }

  lemma {:induction false} NewlinesCountedRest(o: Options, v: Json, c: nat, depth: nat)
    requires IsContainer(v) && c <= |v.items| && depth > 0
    ensures CountRest(o, v, c, depth).newlines == |v.items| - c + 1 + NewlinesIn(v.items[c..])
    decreases v, 0, |v.items| - c
  {
    hide Escaped, CountOf;
    if c < |v.items| {
      NewlinesCounted(o, v.items[c], depth);
      NewlinesCountedRest(o, v, c + 1, depth);
      assert v.items[c..][1..] == v.items[c + 1..];
    }
  }

  /** The measurer's result, in terms of the text. */
  lemma TotalIsExact(o: Options, v: Json)
    requires Printable(v)
    ensures var c := CountOf(o, v, 0);
            Total(o, c.chars + 1, c.newlines, c.indents)
            == |Text(o, v, 0)| + Slack(v) + 1 + ExtraIndents(o, Newlines(v))
  {
    hide Text, CountOf, Newlines, Printable, Slack;
    CountIsLength(o, v, 0);
    NewlinesCounted(o, v, 0);
    TotalSplit(o, CountOf(o, v, 0));
    assert 0 * o.indentSize == 0;
  }

  lemma TotalSplit(o: Options, c: Count)
    ensures Total(o, c.chars + 1, c.newlines, c.indents)
         == Chars(o, c) + 1 + ExtraIndents(o, c.newlines)
  {
    assert c.newlines * (BreakSize(o) + o.indentSize) == c.newlines * BreakSize(o) + o.indentSize * c.newlines;
  }

  // ------------------------------------------------------------- steps of a walk

  lemma LevelsSnoc(levels: seq<Level>, l: Level)
    requires LevelsOk(levels) && IsContainer(l.v) && l.c <= |l.v.items|
    ensures LevelsOk(levels + [l]) && (levels + [l])[..|levels|] == levels
  {
  }

  lemma LevelsInit(levels: seq<Level>)
    requires LevelsOk(levels) && levels != []
    ensures LevelsOk(levels[..|levels| - 1])
    ensures var l := levels[|levels| - 1];
            IsContainer(l.v) && l.c <= |l.v.items| && levels == levels[..|levels| - 1] + [l]
  {
  }

  lemma AfterSnoc(o: Options, levels: seq<Level>, l: Level)
    requires LevelsOk(levels) && IsContainer(l.v) && l.c <= |l.v.items|
    ensures LevelsOk(levels + [l])
    ensures TextAfter(o, levels + [l]) == Rest(o, l.v, l.c, (|levels| + 1) * o.indentSize) + TextAfter(o, levels)
    ensures WorkAfter(levels + [l]) == RestWork(l.v, l.c) + WorkAfter(levels)
    ensures CountAfter(o, levels + [l]) == Plus(CountRest(o, l.v, l.c, |levels| + 1), CountAfter(o, levels))
  {
    hide Rest, RestWork, CountRest;
    LevelsSnoc(levels, l);
    var s := levels + [l];
    assert s[..|s| - 1] == levels && s[|s| - 1] == l;
  }

  /** Entering child c: what is left to count splits into what stands before the
      child, the child itself, and what is left after it. */
  lemma CountDown(o: Options, base: seq<Level>, v: Json, c: nat)
    requires LevelsOk(base) && IsContainer(v) && c < |v.items|
    ensures LevelsOk(base + [Level(v, c + 1)])
    ensures Plus(CountRest(o, v, c, |base| + 1), CountAfter(o, base))
         == Plus(CountBefore(o, v, c, |base| + 1),
                 Plus(CountOf(o, v.items[c], |base| + 1), CountAfter(o, base + [Level(v, c + 1)])))
  {
    AfterSnoc(o, base, Level(v, c + 1));
    hide CountOf, CountBefore, CountAfter;
  }

  lemma WorkDown(o: Options, base: seq<Level>, v: Json, c: nat)
    requires LevelsOk(base) && IsContainer(v) && c < |v.items|
    ensures LevelsOk(base + [Level(v, c + 1)])
    ensures RestWork(v, c) + WorkAfter(base) == 1 + Work(v.items[c]) + WorkAfter(base + [Level(v, c + 1)])
  {
    AfterSnoc(o, base, Level(v, c + 1));
    hide Work, WorkAfter;
  }

  lemma TextDown(o: Options, base: seq<Level>, v: Json, c: nat)
    requires LevelsOk(base) && IsContainer(v) && c < |v.items|
    ensures LevelsOk(base + [Level(v, c + 1)])
    ensures Rest(o, v, c, (|base| + 1) * o.indentSize) + TextAfter(o, base)
         == Separator(o, c, (|base| + 1) * o.indentSize)
            + (Label(o, v, c)
               + (Text(o, v.items[c], (|base| + 1) * o.indentSize) + TextAfter(o, base + [Level(v, c + 1)])))
  {
    hide Text, Label, Separator, TextAfter, Rest, CountAfter, CountRest, RestWork, WorkAfter;
    AfterSnoc(o, base, Level(v, c + 1));
    TextDownAt(o, base, v, c, (|base| + 1) * o.indentSize);
  }

  lemma TextDownAt(o: Options, base: seq<Level>, v: Json, c: nat, indent: nat)
    requires IsContainer(v) && c < |v.items|
    requires LevelsOk(base) && LevelsOk(base + [Level(v, c + 1)])
    requires TextAfter(o, base + [Level(v, c + 1)]) == Rest(o, v, c + 1, indent) + TextAfter(o, base)
    ensures Rest(o, v, c, indent) + TextAfter(o, base)
         == Separator(o, c, indent)
            + (Label(o, v, c) + (Text(o, v.items[c], indent) + TextAfter(o, base + [Level(v, c + 1)])))
  {
    hide Text, Label, Separator, TextAfter, Rest, LevelsOk;
    RestSplit(o, v, c, indent);
  }

  /** Opening a container that is not empty. */
  lemma OpenedSplit(o: Options, v: Json, depth: nat)
    requires IsContainer(v) && v.items != []
    ensures CountOf(o, v, depth) == Plus(Count(BracketSize(o), 0, 0), CountRest(o, v, 0, depth + 1))
    ensures Work(v) == RestWork(v, 0)
    ensures Text(o, v, depth * o.indentSize)
         == [Opening(v)] + (Blank(SpacesAroundBrackets(o)) + Rest(o, v, 0, (depth + 1) * o.indentSize))
  {
    hide Rest, CountRest, RestWork;
    assert depth * o.indentSize + o.indentSize == (depth + 1) * o.indentSize;
    TextSplit(o, v, depth * o.indentSize);
  }

  /** Closing a container whose children are done. */
  lemma StepUp(o: Options, levels: seq<Level>)
    requires LevelsOk(levels) && levels != [] && levels[|levels| - 1].c == |levels[|levels| - 1].v.items|
    ensures var init := levels[..|levels| - 1]; var l := levels[|levels| - 1];
            && LevelsOk(init)
            && CountAfter(o, levels) == Plus(Count(BracketSize(o), 1, |levels| - 1), CountAfter(o, init))
            && WorkAfter(levels) == 1 + WorkAfter(init)
            && TextAfter(o, levels) == Newline(o, (|levels| - 1) * o.indentSize)
                                       + (Blank(SpacesAroundBrackets(o)) + ([Closing(l.v)] + TextAfter(o, init)))
  {
    hide Newline, Blank, Plus, SpacesAroundBrackets;
    LevelsInit(levels);
    DepthLess(o, |levels|);
    var l := levels[|levels| - 1];
    RestEnds(o, l.v, |levels|);
    hide Rest, Ending, CountRest, RestWork, BracketSize;
    TextUp(o, levels);
  }

  lemma RestEnds(o: Options, v: Json, depth: nat)
    requires IsContainer(v) && depth > 0
    ensures CountRest(o, v, |v.items|, depth) == Count(BracketSize(o), 1, depth - 1)
    ensures RestWork(v, |v.items|) == 1
    ensures Rest(o, v, |v.items|, depth * o.indentSize) == Ending(o, v, depth * o.indentSize)
  {
    hide Ending, BracketSize;
  }

  lemma TextUp(o: Options, levels: seq<Level>)
    requires LevelsOk(levels) && levels != [] && levels[|levels| - 1].c == |levels[|levels| - 1].v.items|
    ensures LevelsOk(levels[..|levels| - 1])
    ensures var init := levels[..|levels| - 1]; var l := levels[|levels| - 1];
            TextAfter(o, levels) == Newline(o, (|levels| - 1) * o.indentSize)
                                    + (Blank(SpacesAroundBrackets(o)) + ([Closing(l.v)] + TextAfter(o, init)))
  {
    hide Newline, Blank, Rest;
    LevelsInit(levels);
    DepthLess(o, |levels|);
    RestEnds(o, levels[|levels| - 1].v, |levels|);
  }

  /** The exact size: text, terminator, what doubles leave unused, and an indentation for
      every line break. */
  function MeasuredSize(o: Options, v: Json): nat {
    |Text(o, v, 0)| + Slack(v) + 1 + ExtraIndents(o, Newlines(v))
  }
}
