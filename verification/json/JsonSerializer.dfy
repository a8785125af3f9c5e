/** The serializer and the measurer of json-builder.c: loops that walk a tree of
    nodes through parent pointers and a cursor in each open container. */
module JsonSerializer {
  import opened JsonGrammar
  import opened JsonArena
  import opened JsonPrinter
  import opened JsonWalk
  import opened JsonHeap

  /** The open containers, outermost first, with their trees. */
  ghost predicate StackOk(root: Value, S: set<Value>, stack: seq<Value>, levels: seq<Level>)
    requires Linked(S)
    reads S`parent, S`kind, S`integer, S`boolean, S`str, S`values, S`names, S`rank, S`tree
  {
    && |stack| == |levels| && LevelsOk(levels)
    && (forall j | 0 <= j < |stack| ::
          && stack[j] in S && IsParent(stack[j].kind) && levels[j].c > 0
          && levels[j].v == Tree(stack[j], S)
          && (j > 0 ==> stack[j].parent == stack[j - 1]))
    && (forall i, j | 0 <= i < j < |stack| :: stack[j].rank < stack[i].rank)
    && (stack != [] ==> stack[0] == root)
  }

  /** The cursors are those of the open containers, and zero elsewhere. */
  ghost predicate CursorsOk(S: set<Value>, stack: seq<Value>, levels: seq<Level>)
    requires |stack| == |levels|
    reads S`lengthIterated, stack`lengthIterated
  {
    && (forall j | 0 <= j < |stack| :: stack[j].lengthIterated == levels[j].c)
    && (forall n | n in S && n !in stack :: n.lengthIterated == 0)
  }

  /** Value is about to be entered from the innermost open container. */
  ghost predicate Below(root: Value, value: Value, S: set<Value>, stack: seq<Value>)
    reads S`parent, S`rank
  {
    && value in S
    && if stack == [] then value == root
       else value.parent == stack[|stack| - 1] && stack[|stack| - 1] in S && value.rank < stack[|stack| - 1].rank
  }

  /** The walk under `root` is at `value`, or over when that is null. */
  ghost predicate Walking(root: Value, value: Value?, S: set<Value>, stack: seq<Value>, levels: seq<Level>)
    reads S`parent, S`kind, S`integer, S`boolean, S`str, S`values, S`names, S`rank, S`tree, S`lengthIterated,
          stack`lengthIterated
  {
    && Linked(S) && root in S
    && |stack| == |levels| && StackOk(root, S, stack, levels)
    && CursorsOk(S, stack, levels)
    && (if value == null then stack == []
        else
          && value in S
          && if value.lengthIterated == 0 then Below(root, value, S, stack)
             else stack != [] && value == stack[|stack| - 1])
  }

  /** The tree of a container has as many children as its node. */
  lemma TreeShape(n: Value, S: set<Value>)
    requires n in S && Linked(S)
    ensures var v := Tree(n, S);
            && (IsParent(n.kind) <==> IsContainer(v))
            && (IsParent(n.kind) ==>
                  && |v.items| == |n.values|
                  && forall i | 0 <= i < |n.values| :: n.values[i] in S && v.items[i] == Tree(n.values[i], S))
            && (n.kind == KObj <==> v.Obj?) && (v.Obj? ==> v.names == n.names && |n.names| == |n.values|)
  {
    assert LinksOk(n, S);
  }

  /** Where the walk under root goes from a finished value: nowhere from root itself. */
  ghost function Up(root: Value, value: Value): Value?
    reads value`parent
  {
    if value == root then null else value.parent
  }

  /** The walk begins. */
  lemma WalkStarts(root: Value, S: set<Value>)
    requires Linked(S) && Idle(S) && root in S
    ensures Walking(root, root, S, [], [])
  {
  }

  lemma StackPush(root: Value, value: Value, S: set<Value>, stack: seq<Value>, levels: seq<Level>, c: nat)
    requires Linked(S) && root in S && StackOk(root, S, stack, levels)
    requires Below(root, value, S, stack) && IsParent(value.kind) && 0 < c <= |value.values|
    ensures StackOk(root, S, stack + [value], levels + [Level(Tree(value, S), c)])
    ensures value !in stack
  {
    TreeShape(value, S);
    hide Tree;
    if stack != [] {
      forall j | 0 <= j < |stack|
        ensures value.rank < stack[j].rank
      {
        assert j == |stack| - 1 || stack[|stack| - 1].rank < stack[j].rank;
      }
    }
  }

  lemma StackReplace(root: Value, S: set<Value>, stack: seq<Value>, levels: seq<Level>, c: nat)
    requires Linked(S) && StackOk(root, S, stack, levels) && stack != []
    requires 0 < c <= |stack[|stack| - 1].values|
    ensures StackOk(root, S, stack, levels[..|levels| - 1] + [Level(Tree(stack[|stack| - 1], S), c)])
    ensures forall j | 0 <= j < |stack| - 1 :: stack[j] != stack[|stack| - 1]
  {
    TreeShape(stack[|stack| - 1], S);
    hide Tree;
  }

  /** A child stands below its container. */
  lemma ChildBelow(root: Value, S: set<Value>, stack: seq<Value>, levels: seq<Level>, i: nat)
    requires Linked(S) && StackOk(root, S, stack, levels) && stack != [] && i < |stack[|stack| - 1].values|
    ensures var child := stack[|stack| - 1].values[i]; Below(root, child, S, stack) && child !in stack
  {
    var n := stack[|stack| - 1];
    assert LinksOk(n, S);
    var child := n.values[i];
    forall j | 0 <= j < |stack|
      ensures child.rank < stack[j].rank
    {
      assert j == |stack| - 1 || n.rank < stack[j].rank;
    }
  }

  /** From a container to its next child. */
  method Enter(ghost root: Value, value: Value, ghost S: set<Value>, ghost stack: seq<Value>, ghost levels: seq<Level>)
    returns (child: Value, ghost stack': seq<Value>, ghost levels': seq<Level>)
    requires Walking(root, value, S, stack, levels) && IsParent(value.kind) && value.lengthIterated < |value.values|
    modifies value`lengthIterated
    ensures Walking(root, child, S, stack', levels') && child.lengthIterated == 0
    ensures child == value.values[old(value.lengthIterated)]
    ensures levels' == (if old(value.lengthIterated) == 0 then levels else levels[..|levels| - 1])
                       + [Level(Tree(value, S), old(value.lengthIterated) + 1)]
  {
    hide Tree, LinksOk, Linked, StackOk, Below;
    if value.lengthIterated == 0 {
      StackPush(root, value, S, stack, levels, 1);
      stack' := stack + [value];
      levels' := levels + [Level(Tree(value, S), 1)];
    } else {
      StackReplace(root, S, stack, levels, value.lengthIterated + 1);
      stack' := stack;
      levels' := levels[..|levels| - 1] + [Level(Tree(value, S), value.lengthIterated + 1)];
    }
    ChildBelow(root, S, stack', levels', value.lengthIterated);
    value.lengthIterated := value.lengthIterated + 1;
    child := value.values[value.lengthIterated - 1];
  }

  /** From a finished leaf, or empty container, back to its container. */
  lemma LeafUp(root: Value, value: Value, S: set<Value>, stack: seq<Value>, levels: seq<Level>)
    requires Walking(root, value, S, stack, levels) && value.lengthIterated == 0
    ensures Walking(root, Up(root, value), S, stack, levels)
    ensures Up(root, value) != null ==> Up(root, value).lengthIterated > 0
  {
    hide Tree, Linked;
    if stack != [] {
      assert stack[|stack| - 1] in S && stack[0] == root;
      assert |stack| > 1 ==> stack[|stack| - 1].rank < stack[0].rank;
    }
  }

  lemma StackPop(root: Value, S: set<Value>, stack: seq<Value>, levels: seq<Level>)
    requires Linked(S) && root in S && StackOk(root, S, stack, levels) && stack != []
    ensures |stack| == |levels| && StackOk(root, S, stack[..|stack| - 1], levels[..|levels| - 1])
    ensures stack[|stack| - 1] !in stack[..|stack| - 1]
    ensures Up(root, stack[|stack| - 1]) == if |stack| == 1 then null else stack[|stack| - 2]
    ensures |stack| > 1 ==> stack[|stack| - 2] in S && levels[|levels| - 2].c > 0
    ensures levels[|levels| - 1].v == Tree(stack[|stack| - 1], S) && IsParent(stack[|stack| - 1].kind)
  {
    hide Tree;
  }

  /** From a container whose children are all done back to its own container. */
  method Leave(ghost root: Value, value: Value, ghost S: set<Value>, ghost stack: seq<Value>, ghost levels: seq<Level>)
    requires Walking(root, value, S, stack, levels) && value.lengthIterated > 0
    modifies value`lengthIterated
    ensures |stack| == |levels| > 0
    ensures Walking(root, Up(root, value), S, stack[..|stack| - 1], levels[..|levels| - 1])
    ensures Up(root, value) != null ==> Up(root, value).lengthIterated > 0
  {
    hide Tree, LinksOk, Linked, StackOk, Below;
    StackPop(root, S, stack, levels);
    value.lengthIterated := 0;
  }

  // ---------------------------------------------------------------- measurer

  /** Only the root of the walk can be without a parent. */
  lemma NotRoot(root: Value, value: Value, S: set<Value>, stack: seq<Value>, levels: seq<Level>)
    requires Walking(root, value, S, stack, levels) && value != root
    ensures value.parent != null
  {
    hide Tree, Linked;
    var k := |stack| - 1;
    assert stack != [] && stack[0] == root;
    assert value == stack[k] ==> k > 0 && stack[k].parent == stack[k - 1];
  }

  /** The level at which the walk resumes a container. */
  lemma AtLevel(root: Value, value: Value, S: set<Value>, stack: seq<Value>, levels: seq<Level>)
    requires Walking(root, value, S, stack, levels)
    ensures |stack| == |levels| && LevelsOk(levels)
    ensures value.lengthIterated > 0 ==>
              && levels != [] && IsParent(value.kind)
              && levels[|levels| - 1] == Level(Tree(value, S), value.lengthIterated)
              && value.lengthIterated <= |value.values|
  {
    if value.lengthIterated > 0 {
      TreeShape(value, S);
    }
    hide Tree, Linked;
  }

  /** What is to be counted of the value that the walk is at. */
  ghost function CountNow(o: Options, value: Value?, S: set<Value>, levels: seq<Level>): Count
    requires Linked(S) && (value != null ==> value in S) && LevelsOk(levels)
    reads S`parent, S`kind, S`integer, S`boolean, S`str, S`values, S`names, S`rank, S`tree, S`lengthIterated
  {
    if value != null && value.lengthIterated == 0 then CountOf(o, Tree(value, S), |levels|) else ZERO
  }

  /** Number of loop iterations left. */
  ghost function WorkLeft(value: Value?, S: set<Value>, levels: seq<Level>): nat
    requires Linked(S) && (value != null ==> value in S) && LevelsOk(levels)
    reads S`parent, S`kind, S`integer, S`boolean, S`str, S`values, S`names, S`rank, S`tree, S`lengthIterated
  {
    (if value != null && value.lengthIterated == 0 then Work(Tree(value, S)) else 0) + WorkAfter(levels)
  }

  /** The length of a string with its escapes. */
  method MeasureString(str: string) returns (n: nat)
    ensures n == |Escaped(str)|
  {
    n := 0;
    var i := 0;
    while i < |str|
      invariant i <= |str| && n + |Escaped(str[i..])| == |Escaped(str)|
    {
      assert str[i..][1..] == str[i + 1..];
      match str[i] {
        case '"' => n := n + 2;
        case '\\' => n := n + 2;
        case '\n' => n := n + 2;
        case '\r' => n := n + 2;
        case '\t' => n := n + 2;
        case c => n := n + if c == BACKSPACE || c == FORMFEED then 2 else 1;
      }
      i := i + 1;
    }
  }

  /** The number of characters of a decimal integer. */
  method MeasureInteger(v: int) returns (n: nat)
    ensures n == |IntText(v)|
  {
    n := 0;
    var integer := v;
    if integer < 0 {
      n := n + 1;
      integer := -integer;
    }
    n := n + 1;
    while integer >= 10
      invariant integer >= 0 && n + |Digits(integer)| - 1 == |IntText(v)|
    {
      n := n + 1;
      integer := integer / 10;
    }
  }

  /** What is counted, and what stays, when the walk enters the next child. */
  lemma EnterCounts(o: Options, v: Json, c: nat, levels: seq<Level>)
    requires LevelsOk(levels) && IsContainer(v) && c < |v.items|
    requires c > 0 ==> levels != [] && levels[|levels| - 1] == Level(v, c)
    ensures var base := if c == 0 then levels else levels[..|levels| - 1];
            var after := base + [Level(v, c + 1)];
            var before := if c == 0 then CountOf(o, v, |levels|) else ZERO;
            var first := Count(if c == 0 then BracketSize(o) else 0, 0, 0);
            && LevelsOk(after)
            && Sums(first, CountBefore(o, v, c, |base| + 1),
                    Plus(CountOf(o, v.items[c], |after|), CountAfter(o, after)),
                    Plus(before, CountAfter(o, levels)))
            && (if c == 0 then Work(v) else 0) + WorkAfter(levels) == 1 + Work(v.items[c]) + WorkAfter(after)
  {
    hide CountOf, CountRest, Work, RestWork, CountAfter, WorkAfter, CountBefore, Rest;
    var base := if c == 0 then levels else levels[..|levels| - 1];
    if c == 0 {
      OpenedSplit(o, v, |levels|);
    } else {
      LevelsInit(levels);
      AfterSnoc(o, base, Level(v, c));
    }
    CountDown(o, base, v, c);
    WorkDown(o, base, v, c);
  }

  /** What is counted and what is left add up to the count of the whole tree. */
  ghost predicate Tally(o: Options, goal: Count, root: Value, value: Value?, S: set<Value>, stack: seq<Value>,
                        levels: seq<Level>,
                        total: nat, newlines: nat, indents: nat)
    reads S`parent, S`kind, S`integer, S`boolean, S`str, S`values, S`names, S`rank, S`tree, S`lengthIterated,
          stack`lengthIterated
  {
    && Walking(root, value, S, stack, levels) && LevelsOk(levels)
    && total >= 1
    && Sums(Count(total - 1, newlines, indents), CountNow(o, value, S, levels), CountAfter(o, levels), goal)
  }

  /** The measurer's step from a container to its next child. */
  method MeasureEnter(o: Options, ghost goal: Count, ghost root: Value, value: Value, ghost S: set<Value>,
                      ghost stack: seq<Value>, ghost levels: seq<Level>,
                      total: nat, newlines: nat, depth: nat, indents: nat)
    returns (value': Value, ghost stack': seq<Value>, ghost levels': seq<Level>,
             total': nat, newlines': nat, depth': nat, indents': nat)
    requires Tally(o, goal, root, value, S, stack, levels, total, newlines, indents) && depth == |levels|
    requires IsParent(value.kind) && value.lengthIterated < |value.values|
    modifies value`lengthIterated
    ensures Tally(o, goal, root, value', S, stack', levels', total', newlines', indents') && depth' == |levels'|
    ensures WorkLeft(value', S, levels') + 1 == old(WorkLeft(value, S, levels))
  {
    hide IsContainer, IsParent;
    hide Tree, LinksOk, Linked, StackOk, Below, CountOf, CountAfter, WorkAfter, Work, CursorsOk, LevelsOk, Escaped;
    TreeShape(value, S);
    AtLevel(root, value, S, stack, levels);
    var c := value.lengthIterated;
    EnterCounts(o, Tree(value, S), c, levels);
    if c == 0 {
      total' := total + BracketSize(o);
      depth' := depth + 1;
    } else {
      total' := total + CommaSize(o);
      depth' := depth;
    }
    newlines', indents' := newlines + 1, indents + depth';
    if value.kind == KObj {
      var m := MeasureString(value.names[c]);
      total' := total' + 2 + ColonSize(o) + m;
    }
    value', stack', levels' := Enter(root, value, S, stack, levels);
  }

  /** The measurer's step out of a container. */
  method MeasureLeave(o: Options, ghost goal: Count, ghost root: Value, value: Value, ghost S: set<Value>,
                      ghost stack: seq<Value>, ghost levels: seq<Level>,
                      total: nat, newlines: nat, depth: nat, indents: nat)
    returns (total': nat, newlines': nat, depth': nat, indents': nat)
    requires Tally(o, goal, root, value, S, stack, levels, total, newlines, indents) && depth == |levels|
    requires IsParent(value.kind) && value.lengthIterated == |value.values| > 0
    modifies value`lengthIterated
    ensures |stack| == |levels| > 0
    ensures Tally(o, goal, root, Up(root, value), S, stack[..|stack| - 1], levels[..|levels| - 1], total', newlines',
                  indents')
    ensures depth' == |levels| - 1
    ensures WorkLeft(Up(root, value), S, levels[..|levels| - 1]) + 1 == old(WorkLeft(value, S, levels))
  {
    hide Tree, LinksOk, Linked, StackOk, Below, CountOf, CountAfter, WorkAfter, Work, CursorsOk, LevelsOk;
    TreeShape(value, S);
    AtLevel(root, value, S, stack, levels);
    StepUp(o, levels);
    depth' := depth - 1;
    newlines', indents' := newlines + 1, indents + depth';
    total' := total + BracketSize(o);
    Leave(root, value, S, stack, levels);
  }

  /** The measurer's step over a value without children. */
  method MeasureOver(o: Options, ghost goal: Count, ghost root: Value, value: Value, ghost S: set<Value>,
                     ghost stack: seq<Value>, ghost levels: seq<Level>,
                     total: nat, ghost newlines: nat, ghost indents: nat)
    returns (total': nat)
    requires Tally(o, goal, root, value, S, stack, levels, total, newlines, indents)
    requires value.lengthIterated == 0 && (IsParent(value.kind) ==> value.values == [])
    ensures Tally(o, goal, root, Up(root, value), S, stack, levels, total', newlines, indents)
    ensures WorkLeft(Up(root, value), S, levels) + 1 == WorkLeft(value, S, levels)
  {
    hide Tree, LinksOk, Linked, StackOk, Below, CountOf, CountAfter, WorkAfter, Work, CursorsOk, LevelsOk;
    TreeShape(value, S);
    var m := MeasureLeaf(value, S);
    LeafCount(o, Tree(value, S), |levels|);
    LeafUp(root, value, S, stack, levels);
    total' := total + m;
  }

  /** One iteration of the measurer's loop. From the root of the walk it goes on to the
      parent of the root, when there is one; the walk under the root is then over. */
  method MeasureStep(o: Options, ghost goal: Count, ghost root: Value, value: Value, ghost S: set<Value>,
                     ghost stack: seq<Value>, ghost levels: seq<Level>,
                     total: nat, newlines: nat, depth: nat, indents: nat)
    returns (value': Value?, ghost at: Value?, ghost stack': seq<Value>, ghost levels': seq<Level>,
             total': nat, newlines': nat, depth': nat, indents': nat)
    requires Tally(o, goal, root, value, S, stack, levels, total, newlines, indents) && depth == |levels|
    modifies S`lengthIterated
    ensures Tally(o, goal, root, at, S, stack', levels', total', newlines', indents') && depth' == |levels'|
    ensures Linked(S)
    ensures value' == if at == null then root.parent else at
    ensures WorkLeft(at, S, levels') + 1 == old(WorkLeft(value, S, levels))
  {
    hide Tree, Linked, Tally, LevelsOk, WorkLeft, CountOf, Work, WorkAfter, Walking, CountAfter, Plus;
    MeasureBranch(o, goal, root, value, S, stack, levels, total, newlines, indents);
    TallyFacts(o, goal, root, value, S, stack, levels, total, newlines, indents);
    if IsParent(value.kind) && value.lengthIterated < |value.values| {
      value', stack', levels', total', newlines', depth', indents' :=
        MeasureEnter(o, goal, root, value, S, stack, levels, total, newlines, depth, indents);
      at := value';
    } else if IsParent(value.kind) && value.values != [] {
      total', newlines', depth', indents' :=
        MeasureLeave(o, goal, root, value, S, stack, levels, total, newlines, depth, indents);
      value', at, stack', levels' := value.parent, Up(root, value), stack[..|stack| - 1], levels[..|levels| - 1];
    } else {
      total' := MeasureOver(o, goal, root, value, S, stack, levels, total, newlines, indents);
      value', at, stack', levels' := value.parent, Up(root, value), stack, levels;
      newlines', depth', indents' := newlines, depth, indents;
    }
    TallyFacts(o, goal, root, at, S, stack', levels', total', newlines', indents');
  }

  /** The value of a node, and those of its ancestors. */
  ghost function Ups(n: Value, S: set<Value>): (r: seq<Json>)
    requires n in S && Linked(S)
    reads S`parent, S`kind, S`integer, S`boolean, S`str, S`values, S`names, S`rank, S`tree
    ensures r != [] && r[0] == Tree(n, S)
    decreases n.tree.rank - n.rank
  {
    assert LinksOk(n, S);
    if n.parent == null then [Tree(n, S)]
    else
      assert LinksOk(n.parent, S);
      [Tree(n, S)] + Ups(n.parent, S)
  }

  predicate AllPrintable(vs: seq<Json>) {
    forall i | 0 <= i < |vs| :: Printable(vs[i])
  }

  /** The walk has visited `done` as a whole, and is now under root. */
  ghost predicate Rising(start: Value, root: Value, S: set<Value>, done: seq<Json>)
    reads S`parent, S`kind, S`integer, S`boolean, S`str, S`values, S`names, S`rank, S`tree
  {
    Linked(S) && start in S && root in S && Ups(start, S) == done + Ups(root, S)
  }

  /** The walk goes on under the parent of its root. */
  lemma RiseOn(start: Value, root: Value, S: set<Value>, done: seq<Json>)
    requires Rising(start, root, S, done) && root.parent != null
    ensures root.parent in S && Rising(start, root.parent, S, done + [Tree(root, S)])
    ensures 0 <= root.parent.tree.rank - root.parent.rank < root.tree.rank - root.rank
  {
    hide Tree;
    assert LinksOk(root, S) && LinksOk(root.parent, S);
    assert done + ([Tree(root, S)] + Ups(root.parent, S)) == done + [Tree(root, S)] + Ups(root.parent, S);
  }

  lemma RiseFacts(start: Value, root: Value, S: set<Value>, done: seq<Json>)
    requires Rising(start, root, S, done)
    ensures Linked(S) && start in S && root in S && done + [Tree(root, S)] <= Ups(start, S)
    ensures root.parent == null ==> Ups(start, S) == done + [Tree(root, S)]
    ensures AllPrintable(Ups(start, S)) ==> Printable(Tree(root, S))
  {
    hide Tree, Printable;
    assert Ups(start, S)[|done|] == Ups(root, S)[0];
  }

  function Counts(o: Options, vs: seq<Json>): Count {
    if vs == [] then ZERO else Plus(Counts(o, vs[..|vs| - 1]), CountOf(o, vs[|vs| - 1], 0))
  }

  lemma CountsSnoc(o: Options, vs: seq<Json>, v: Json)
    ensures Counts(o, vs + [v]) == Plus(Counts(o, vs), CountOf(o, v, 0))
  {
    assert (vs + [v])[..|vs|] == vs;
  }

  /** The walk under one more node begins. */
  lemma CountRises(o: Options, root: Value, parent: Value, S: set<Value>, stack: seq<Value>, levels: seq<Level>,
                   total: nat, newlines: nat, indents: nat, done: seq<Json>)
    requires Linked(S) && root in S && parent in S
    requires Tally(o, Counts(o, done + [Tree(root, S)]), root, null, S, stack, levels, total, newlines, indents)
    ensures Tally(o, Counts(o, done + [Tree(root, S)] + [Tree(parent, S)]), parent, parent, S, [], [], total, newlines,
                  indents)
    ensures stack == [] && levels == []
  {
    hide Tree, Linked, CountOf;
    var goal := Counts(o, done + [Tree(root, S)]);
    TallyEnds(o, goal, root, S, stack, levels, total, newlines, indents);
    CountsSnoc(o, done + [Tree(root, S)], Tree(parent, S));
    MeasureStarts(o, goal, parent, S, total, newlines, indents);
  }

  /** The size of the buffer that the serializer needs: the length of the text, its
      terminator and, in the multi-line layout, one indentation for every line break. From
      a value that has a parent the walk goes on to its ancestors, and measures them too. */
  method MeasureEx(start: Value, o: Options, ghost S: set<Value>) returns (n: nat)
    requires Valid(S) && start in S && AllPrintable(Ups(start, S))
    modifies S`lengthIterated
    ensures Valid(S)
    ensures n == MeasuredAll(o, Ups(start, S))
  {
    hide Tree, Linked, CountOf, Counts, Ups, Printable, MeasuredAll, LevelsOk, Total, RoomOk;
    hide Walking, Tally, Rising, WorkLeft, AllPrintable;
    var total: nat, newlines: nat, depth: nat, indents: nat := 1, 0, 0, 0;
    var value: Value? := start;
    ghost var root: Value, done: seq<Json>, stack: seq<Value>, levels: seq<Level> := start, [], [], [];
    RiseFirst(start, S);
    MeasureFirst(o, start, S);
    while value != null
      invariant Rising(start, root, S, done) && Linked(S) && root in S && (value == null ==> root.parent == null)
      invariant Tally(o, Counts(o, done + [Tree(root, S)]), root, value, S, stack, levels, total, newlines, indents)
      invariant depth == |levels| && 0 <= root.tree.rank - root.rank
      invariant (value != null ==> value in S) && LevelsOk(levels)
      decreases root.tree.rank - root.rank, WorkLeft(value, S, levels)
    {
      ghost var goal, at := Counts(o, done + [Tree(root, S)]), value;
      value, at, stack, levels, total, newlines, depth, indents :=
        MeasureStep(o, goal, root, value, S, stack, levels, total, newlines, depth, indents);
      if at == null && value != null {
        RiseOn(start, root, S, done);
        CountRises(o, root, value, S, stack, levels, total, newlines, indents, done);
        root, done := root.parent, done + [Tree(root, S)];
      }
      TallyFacts(o, Counts(o, done + [Tree(root, S)]), root, value, S, stack, levels, total, newlines, indents);
    }
    RiseFacts(start, root, S, done);
    TallyEnds(o, Counts(o, done + [Tree(root, S)]), root, S, stack, levels, total, newlines, indents);
    AllFinished(o, Ups(start, S), total, newlines, indents);
    n := AddLayout(o, total, newlines, indents);
  }

  lemma RiseFirst(start: Value, S: set<Value>)
    requires Linked(S) && start in S
    ensures Rising(start, start, S, []) && 0 <= start.tree.rank - start.rank
  {
    assert LinksOk(start, S) && [] + Ups(start, S) == Ups(start, S);
  }

  lemma MeasureFirst(o: Options, start: Value, S: set<Value>)
    requires Valid(S) && start in S
    ensures Tally(o, Counts(o, [] + [Tree(start, S)]), start, start, S, [], [], 1, 0, 0) && LevelsOk([])
  {
    hide Tree, Linked, CountOf;
    CountsSnoc(o, [], Tree(start, S));
    MeasureStarts(o, ZERO, start, S, 1, 0, 0);
  }

  /** The measurer's result for the texts of several values behind each other. */
  function MeasuredAll(o: Options, vs: seq<Json>): nat {
    |Texts(o, vs)| + SlackOf(vs) + 1 + ExtraIndents(o, NewlinesOf(vs))
  }

  function Texts(o: Options, vs: seq<Json>): string {
    if vs == [] then "" else Texts(o, vs[..|vs| - 1]) + Text(o, vs[|vs| - 1], 0)
  }

  function NewlinesOf(vs: seq<Json>): nat {
    if vs == [] then 0 else NewlinesOf(vs[..|vs| - 1]) + Newlines(vs[|vs| - 1])
  }

  function SlackOf(vs: seq<Json>): nat {
    if vs == [] then 0 else SlackOf(vs[..|vs| - 1]) + Slack(vs[|vs| - 1])
  }

  lemma {:induction false} CountsExact(o: Options, vs: seq<Json>)
    requires AllPrintable(vs)
    ensures Chars(o, Counts(o, vs)) == |Texts(o, vs)| + SlackOf(vs) && Counts(o, vs).newlines == NewlinesOf(vs)
  {
    hide CountOf, Text, Newlines, Printable, Slack;
    if vs != [] {
      var init, v := vs[..|vs| - 1], vs[|vs| - 1];
      CountsExact(o, init);
      CountIsLength(o, v, 0);
      NewlinesCounted(o, v, 0);
      CharsPlus(o, Counts(o, init), CountOf(o, v, 0));
      assert 0 * o.indentSize == 0;
    }
  }

  lemma AllFinished(o: Options, vs: seq<Json>, total: nat, newlines: nat, indents: nat)
    requires AllPrintable(vs) && total >= 1 && Count(total - 1, newlines, indents) == Counts(o, vs)
    ensures Total(o, total, newlines, indents) == MeasuredAll(o, vs)
  {
    hide Counts, Texts, NewlinesOf, SlackOf, AllPrintable;
    CountsExact(o, vs);
    TotalSplit(o, Counts(o, vs));
  }

  /** For a root that is its own size. */
  lemma RootAlone(o: Options, n: Value, S: set<Value>)
    requires Linked(S) && n in S && n.parent == null
    ensures Ups(n, S) == [Tree(n, S)] && Texts(o, Ups(n, S)) == Text(o, Tree(n, S), 0)
    ensures MeasuredAll(o, Ups(n, S)) == MeasuredSize(o, Tree(n, S))
  {
    hide Tree, Text, Newlines, Slack;
    var v := Tree(n, S);
    assert [v][..0] == [] && NewlinesOf([]) == 0 && SlackOf([]) == 0 && Texts(o, []) + Text(o, v, 0) == Text(o, v, 0);
  }

  /** The text written is that of the value alone exactly when the value is a root. */
  lemma OnlyRoots(o: Options, n: Value, S: set<Value>)
    requires Linked(S) && n in S && AllPrintable(Ups(n, S))
    ensures Texts(o, Ups(n, S)) == Text(o, Tree(n, S), 0) <==> n.parent == null
  {
    hide Tree, Text, Printable;
    if n.parent == null {
      RootAlone(o, n, S);
    } else {
      var vs := Ups(n, S);
      assert LinksOk(n, S) && LinksOk(n.parent, S) && vs[1] == Tree(n.parent, S);
      TextsSplit(o, vs[..1], vs[1..2]);
      TextsSplit(o, vs[..2], vs[2..]);
      assert vs[..1] + vs[1..2] == vs[..2] && vs[..2] + vs[2..] == vs;
      assert Texts(o, [vs[0]]) == Texts(o, []) + Text(o, vs[0], 0)
             && Texts(o, [vs[1]]) == Texts(o, []) + Text(o, vs[1], 0);
      SomeText(o, vs[1], 0);
    }
  }

  lemma {:induction false} TextsSplit(o: Options, a: seq<Json>, b: seq<Json>)
    ensures Texts(o, a + b) == Texts(o, a) + Texts(o, b)
    decreases |b|
  {
    hide Text;
    if b == [] {
      assert a + b == a;
    } else {
      TextsSplit(o, a, b[..|b| - 1]);
      assert (a + b)[..|a + b| - 1] == a + b[..|b| - 1];
    }
  }

  /** The line breaks and the indentation, counted at the end. */
  method AddLayout(o: Options, total: nat, newlines: nat, indents: nat) returns (n: nat)
    ensures n == Total(o, total, newlines, indents)
  {
    n := total;
    if o.layout.Multiline? {
      n := n + newlines * (BreakSize(o) + o.indentSize);
      n := n + indents * o.indentSize;
    }
  }

  lemma TallyFacts(o: Options, goal: Count, root: Value, value: Value?, S: set<Value>, stack: seq<Value>,
                   levels: seq<Level>,
                   total: nat, newlines: nat, indents: nat)
    requires Tally(o, goal, root, value, S, stack, levels, total, newlines, indents)
    ensures Linked(S) && (value != null ==> value in S) && LevelsOk(levels)
  {
    hide Tree, Linked, StackOk, CursorsOk, CountOf;
  }

  /** A container that is neither entered further nor empty has all children done. */
  lemma MeasureBranch(o: Options, goal: Count, root: Value, value: Value, S: set<Value>, stack: seq<Value>,
                      levels: seq<Level>,
                      total: nat, newlines: nat, indents: nat)
    requires Tally(o, goal, root, value, S, stack, levels, total, newlines, indents)
    ensures IsParent(value.kind) ==> value.lengthIterated <= |value.values|
    ensures !IsParent(value.kind) ==> value.lengthIterated == 0
    ensures value != root ==> value.parent != null
  {
    hide Tree, Linked, StackOk, CursorsOk, CountOf, CountAfter;
    AtLevel(root, value, S, stack, levels);
    if value != root {
      NotRoot(root, value, S, stack, levels);
    }
  }

  /** A walk begins when so much is counted. */
  lemma MeasureStarts(o: Options, goal: Count, root: Value, S: set<Value>, total: nat, newlines: nat, indents: nat)
    requires Linked(S) && Idle(S) && root in S && total >= 1 && goal == Count(total - 1, newlines, indents)
    ensures Tally(o, Plus(goal, CountOf(o, Tree(root, S), 0)), root, root, S, [], [], total, newlines, indents)
    ensures LevelsOk([])
  {
    hide Tree, Linked, CountOf;
    WalkStarts(root, S);
    NothingAfter(o);
  }

  /** When the walk is over everything is counted. */
  lemma TallyEnds(o: Options, goal: Count, root: Value, S: set<Value>, stack: seq<Value>, levels: seq<Level>,
                  total: nat, newlines: nat, indents: nat)
    requires Tally(o, goal, root, null, S, stack, levels, total, newlines, indents)
    ensures Idle(S) && Linked(S) && root in S && total >= 1 && stack == [] && levels == []
    ensures Count(total - 1, newlines, indents) == goal
  {
    hide Tree, Linked, CountOf, StackOk, CountAfter, CursorsOk, Idle, LevelsOk, Plus, WorkAfter, TextAfter;
    assert levels == [];
    WalkEnds(root, S);
    NothingAfter(o);
  }

  /** When the walk is over every cursor is back at zero. */
  lemma WalkEnds(root: Value, S: set<Value>)
    requires Walking(root, null, S, [], [])
    ensures Idle(S)
  {
    hide Linked, StackOk;
  }

  lemma NothingAfter(o: Options)
    ensures CountAfter(o, []) == ZERO && WorkAfter([]) == 0 && TextAfter(o, []) == ""
  {
  }

  /** The characters of a value without children. */
  function LeafSize(v: Json): nat {
    match v
    case Null => 4
    case Bool(b) => if b then 4 else 5
    case Int(n) => |IntText(n)|
    case Double(g) => |g| + 2
    case Str(s) => 2 + |Escaped(s)|
    case _ => 2
  }

  lemma LeafCount(o: Options, v: Json, depth: nat)
    requires IsContainer(v) ==> v.items == []
    ensures CountOf(o, v, depth) == Count(LeafSize(v), 0, 0) && Work(v) == 1
  {
    hide Escaped;
  }

  method MeasureLeaf(value: Value, ghost S: set<Value>) returns (n: nat)
    requires Linked(S) && value in S && (IsParent(value.kind) ==> value.values == [])
    ensures n == LeafSize(Tree(value, S))
  {
    TreeShape(value, S);
    match value.kind {
      case KNull => n := 4;
      case KBool => n := if value.boolean then 4 else 5;
      case KInt => n := MeasureInteger(value.integer);
      case KDouble =>
        n := |value.str|;
        n := n + 2;
      case KStr =>
        n := MeasureString(value.str);
        n := n + 2;
      case KArr => n := 2;
      case KObj => n := 2;
    }
  }

  // --------------------------------------------------------------- serializer

  /** Writes characters from position pos on. */
  method Put(buf: array<char>, pos: nat, x: string) returns (pos': nat)
    requires pos + |x| <= buf.Length
    modifies buf
    ensures pos' == pos + |x| && buf[..pos'] == old(buf[..pos]) + x
  {
    pos' := pos;
    var i := 0;
    assert old(buf[..pos]) + x[..0] == old(buf[..pos]);
    while i < |x|
      invariant i <= |x| && pos' == pos + i && buf[..pos'] == old(buf[..pos]) + x[..i]
    {
      buf[pos'] := x[i];
      pos' := pos' + 1;
      i := i + 1;
      assert buf[..pos'] == buf[..pos' - 1] + [x[i - 1]];
      assert x[..i] == x[..i - 1] + [x[i - 1]];
    }
    assert x[..|x|] == x;
  }

  /** Writes a string with its escapes. */
  method SerializeString(buf: array<char>, pos: nat, str: string) returns (pos': nat)
    requires pos + |Escaped(str)| <= buf.Length
    modifies buf
    ensures pos' == pos + |Escaped(str)| && buf[..pos'] == old(buf[..pos]) + Escaped(str)
  {
    hide EscapedChar;
    pos' := pos;
    var i := 0;
    while i < |str|
      invariant i <= |str| && pos' + |Escaped(str[i..])| == pos + |Escaped(str)|
      invariant buf[..pos'] + Escaped(str[i..]) == old(buf[..pos]) + Escaped(str)
    {
      assert str[i..][1..] == str[i + 1..];
      assert Escaped(str[i..]) == EscapedChar(str[i]) + Escaped(str[i + 1..]);
      var x := PutEscape(str[i]);
      pos' := Put(buf, pos', x);
      i := i + 1;
    }
    assert Escaped(str[|str|..]) == "";
  }

  /** The characters that stand for one character of a string. */
  method PutEscape(b: char) returns (x: string)
    ensures x == EscapedChar(b)
  {
    match b {
      case '"' => x := "\\\"";
      case '\\' => x := "\\\\";
      case '\n' => x := "\\n";
      case '\r' => x := "\\r";
      case '\t' => x := "\\t";
      case c => x := if c == BACKSPACE then "\\b" else if c == FORMFEED then "\\f" else [c];
    }
  }

  /** Writes a decimal integer: room for its digits is counted first, and they are
      then written from the last to the first. */
  method SerializeInteger(buf: array<char>, pos: nat, v: int) returns (pos': nat)
    requires pos + |IntText(v)| <= buf.Length && -INT_MAX <= v
    modifies buf
    ensures pos' == pos + |IntText(v)| && buf[..pos'] == old(buf[..pos]) + IntText(v)
  {
    hide Digits;
    pos' := pos;
    var integer := v;
    if integer < 0 {
      pos' := Put(buf, pos', "-");
      integer := -integer;
    }
    pos' := SerializeDigits(buf, pos', integer);
    assert v < 0 ==> old(buf[..pos]) + "-" + Digits(-v) == old(buf[..pos]) + IntText(v);
  }

  /** The last digit of an integer, and those before it. */
  lemma LastDigit(n: nat)
    ensures Digits(n) == (if n >= 10 then Digits(n / 10) else "") + [DigitChar(n % 10)]
    ensures |Digits(n)| == (if n >= 10 then |Digits(n / 10)| else 0) + 1
  {
  }

  lemma DigitMoves(before: string, d: char, tail: string)
    ensures before + [d] + tail == before + ([d] + tail) && "" + [d] + tail == [d] + tail
  {
  }

  lemma TailGrows(s: string, i: nat, j: nat)
    requires i < j <= |s|
    ensures s[i..j] == [s[i]] + s[i + 1..j]
  {
  }

  lemma TwoSlices(s: string, i: nat, j: nat)
    requires i <= j <= |s|
    ensures s[..j] == s[..i] + s[i..j] && s[j..j] == ""
  {
  }

  method SerializeDigits(buf: array<char>, pos: nat, n: nat) returns (pos': nat)
    requires pos + |Digits(n)| <= buf.Length
    modifies buf
    ensures pos' == pos + |Digits(n)| && buf[..pos'] == old(buf[..pos]) + Digits(n)
  {
    hide Digits;
    var integer := n;
    pos' := pos + 1;
    while integer >= 10
      invariant pos' + |Digits(integer)| == pos + 1 + |Digits(n)| && buf[..] == old(buf[..])
    {
      LastDigit(integer);
      pos' := pos' + 1;
      integer := integer / 10;
    }
    LastDigit(integer);
    integer := n;
    var ptr := pos';
    TwoSlices(buf[..], ptr, ptr);
    while true
      invariant pos < ptr <= pos' <= buf.Length && ptr == pos + |Digits(integer)|
      invariant buf[..pos] == old(buf[..pos])
      invariant Digits(integer) + buf[..][ptr..pos'] == Digits(n)
      decreases ptr
    {
      LastDigit(integer);
      ghost var tail, d := buf[..][ptr..pos'], DigitChar(integer % 10);
      DigitMoves(if integer >= 10 then Digits(integer / 10) else "", d, tail);
      ptr := ptr - 1;
      buf[ptr] := "0123456789"[integer % 10];
      TailGrows(buf[..], ptr, pos');
      assert buf[..][ptr + 1..pos'] == tail;
      integer := integer / 10;
      if integer == 0 {
        break;
      }
    }
    TwoSlices(buf[..], pos, pos');
  }

  /** What is still to be written. */
  ghost function TextLeft(o: Options, value: Value?, S: set<Value>, levels: seq<Level>): string
    requires Linked(S) && (value != null ==> value in S) && LevelsOk(levels)
    reads S`parent, S`kind, S`integer, S`boolean, S`str, S`values, S`names, S`rank, S`tree, S`lengthIterated
  {
    (if value != null && value.lengthIterated == 0 then Text(o, Tree(value, S), |levels| * o.indentSize) else "")
      + TextAfter(o, levels)
  }

  /** What is written and what is left make up the text of the whole tree. */
  ghost predicate Writing(o: Options, goal: string, root: Value, value: Value?, S: set<Value>, stack: seq<Value>,
                          levels: seq<Level>,
                          buf: array<char>, pos: nat, indent: nat)
    reads S`parent, S`kind, S`integer, S`boolean, S`str, S`values, S`names, S`rank, S`tree, S`lengthIterated,
          stack`lengthIterated, buf
  {
    && Walking(root, value, S, stack, levels) && LevelsOk(levels)
    && indent == |levels| * o.indentSize
    && pos <= buf.Length && |goal| < buf.Length
    && buf[..pos] + TextLeft(o, value, S, levels) == goal
  }

  /** Writes a line break with its indentation, in the multi-line layout. */
  method PutNewline(o: Options, buf: array<char>, pos: nat, indent: nat) returns (pos': nat)
    requires pos + |Newline(o, indent)| <= buf.Length
    modifies buf
    ensures pos' == pos + |Newline(o, indent)| && buf[..pos'] == old(buf[..pos]) + Newline(o, indent)
  {
    pos' := pos;
    if o.layout.Multiline? {
      if o.crlf {
        pos' := Put(buf, pos', "\r");
      }
      pos' := Put(buf, pos', "\n");
      ghost var before := buf[..pos'];
      var i := 0;
      while i < indent
        invariant i <= indent && pos' == pos + |Newline(o, indent)| - indent + i
        invariant buf[..pos'] == before + Repeat(if Tabs(o) then '\t' else ' ', i)
      {
        pos' := Put(buf, pos', if Tabs(o) then "\t" else " ");
        i := i + 1;
      }
    }
  }

  /** What is written, and what stays, when the walk enters the next child. */
  lemma EnterText(o: Options, v: Json, c: nat, levels: seq<Level>)
    requires LevelsOk(levels) && IsContainer(v) && c < |v.items|
    requires c > 0 ==> levels != [] && levels[|levels| - 1] == Level(v, c)
    ensures var base := if c == 0 then levels else levels[..|levels| - 1];
            var after := base + [Level(v, c + 1)];
            var indent := (|base| + 1) * o.indentSize;
            var before := if c == 0 then Text(o, v, |levels| * o.indentSize) else "";
            && LevelsOk(after) && |after| == |base| + 1
            && before + TextAfter(o, levels)
               == (if c == 0 then [Opening(v)] + Blank(SpacesAroundBrackets(o)) else "")
                  + (Separator(o, c, indent) + (Label(o, v, c) + (Text(o, v.items[c], indent) + TextAfter(o, after))))
            && (if c == 0 then Work(v) else 0) + WorkAfter(levels) == 1 + Work(v.items[c]) + WorkAfter(after)
  {
    hide Text, Work, TextAfter, WorkAfter, Separator, Label, Blank, LevelsOk, Opening;
    if c == 0 {
      EnterTextFirst(o, v, levels);
    } else {
      EnterTextAgain(o, v, c, levels);
    }
  }

  lemma EnterTextFirst(o: Options, v: Json, levels: seq<Level>)
    requires LevelsOk(levels) && IsContainer(v) && v.items != []
    ensures var after := levels + [Level(v, 1)];
            var indent := (|levels| + 1) * o.indentSize;
            && LevelsOk(after)
            && Text(o, v, |levels| * o.indentSize) + TextAfter(o, levels)
               == [Opening(v)] + Blank(SpacesAroundBrackets(o))
                  + (Separator(o, 0, indent) + (Label(o, v, 0) + (Text(o, v.items[0], indent) + TextAfter(o, after))))
            && Work(v) + WorkAfter(levels) == 1 + Work(v.items[0]) + WorkAfter(after)
  {
    hide Text, Rest, Work, RestWork, TextAfter, WorkAfter;
    hide Separator, Label, CountRest, Blank, CountOf, LevelsOk, Opening;
    OpenedSplit(o, v, |levels|);
    TextDown(o, levels, v, 0);
    WorkDown(o, levels, v, 0);
    Regroup([Opening(v)], Blank(SpacesAroundBrackets(o)), Rest(o, v, 0, (|levels| + 1) * o.indentSize),
            TextAfter(o, levels));
  }

  lemma Regroup(a: string, b: string, c: string, d: string)
    ensures a + (b + c) + d == a + b + (c + d)
  {
  }

  lemma EnterTextAgain(o: Options, v: Json, c: nat, levels: seq<Level>)
    requires LevelsOk(levels) && IsContainer(v) && 0 < c < |v.items|
    requires levels != [] && levels[|levels| - 1] == Level(v, c)
    ensures var base := levels[..|levels| - 1];
            var after := base + [Level(v, c + 1)];
            var indent := |levels| * o.indentSize;
            && LevelsOk(after) && |after| == |levels|
            && TextAfter(o, levels)
               == Separator(o, c, indent) + (Label(o, v, c) + (Text(o, v.items[c], indent) + TextAfter(o, after)))
            && WorkAfter(levels) == 1 + Work(v.items[c]) + WorkAfter(after)
  {
    hide Text, Rest, Work, RestWork, TextAfter, WorkAfter, Separator, Label, CountRest, CountAfter, CountOf;
    var base := levels[..|levels| - 1];
    LevelsInit(levels);
    hide LevelsOk;
    AfterSnoc(o, base, Level(v, c));
    TextDown(o, base, v, c);
    WorkDown(o, base, v, c);
  }

  /** Writes x, the next part of what is left. */
  method PutPart(buf: array<char>, pos: nat, x: string, ghost rest: string, ghost whole: string) returns (pos': nat)
    requires pos <= buf.Length && buf[..pos] + (x + rest) == whole && |whole| < buf.Length
    modifies buf
    ensures pos' <= buf.Length && buf[..pos'] + rest == whole
  {
    assert |buf[..pos] + (x + rest)| == pos + |x| + |rest|;
    pos' := Put(buf, pos, x);
    assert old(buf[..pos]) + x + rest == old(buf[..pos]) + (x + rest);
  }

  /** strchr on the characters s at pos, in front of a NUL. */
  method StrChr(buf: array<char>, pos: nat, c: char, ghost s: string) returns (k: nat)
    requires pos + |s| < buf.Length && buf[pos + |s|] == NUL && buf[pos..pos + |s|] == s && NUL !in s && c != NUL
    ensures k == Find(s, c) <= |s| && (buf[pos + k] == c <==> k < |s|)
  {
    k := 0;
    while buf[pos + k] != NUL && buf[pos + k] != c
      invariant k <= |s| && forall i | 0 <= i < k :: s[i] != c
      decreases |s| - k
    {
      assert k < |s| ==> s[k] == buf[pos..pos + |s|][k] == buf[pos + k];
      k := k + 1;
    }
    assert k < |s| ==> s[k] == buf[pos..pos + |s|][k] == buf[pos + k] && s[k] in s;
    FindIs(s, c, k);
  }

  lemma {:induction false} FindIs(s: string, c: char, k: nat)
    requires k <= |s| && (forall i | 0 <= i < k :: s[i] != c) && (k < |s| ==> s[k] == c)
    ensures Find(s, c) == k
  {
    if k > 0 {
      assert forall i | 0 <= i < k - 1 :: s[1..][i] == s[i + 1];
      FindIs(s[1..], c, k - 1);
    }
  }

  /** Writes a double as sprintf prints it, with a NUL behind it. */
  method SerializeDouble(buf: array<char>, pos: nat, g: string) returns (pos': nat)
    requires pos + |DoubleText(g)| < buf.Length && NUL !in g
    modifies buf
    ensures pos' == pos + |DoubleText(g)| && buf[..pos'] == old(buf[..pos]) + DoubleText(g)
  {
    DoubleLength(g);
    hide DoubleText;
    ghost var before := buf[..pos];
    pos' := Put(buf, pos, g);
    buf[pos'] := NUL;
    assert buf[..pos'] == before + g;
    pos' := FixPoint(buf, pos, pos', before, g);
  }

  lemma DoubleLength(g: string)
    ensures |g| <= |DoubleText(g)| <= |g| + 2
  {
  }

  /** A comma of the locale becomes a point, and ".0" is added where neither point nor exponent
      tells a double. */
  method FixPoint(buf: array<char>, pos: nat, end: nat, ghost before: string, ghost g: string) returns (pos': nat)
    requires pos == |before| && end == pos + |g| && pos + |DoubleText(g)| < buf.Length && NUL !in g
    requires end < buf.Length && buf[..end] == before + g && buf[end] == NUL
    modifies buf
    ensures pos' == pos + |DoubleText(g)| && buf[..pos'] == before + DoubleText(g)
  {
    hide Find, DoubleText;
    Behind(buf[..], before, g);
    pos' := end;
    var dot := StrChr(buf, pos, ',', g);
    TextOfDouble(before, g, dot);
    if buf[pos + dot] == ',' {
      SetPoint(buf, pos + dot, before + g);
      return;
    }
    var point := StrChr(buf, pos, '.', g);
    var e := StrChr(buf, pos, 'e', g);
    if buf[pos + point] != '.' && buf[pos + e] != 'e' {
      pos' := Put(buf, pos', ".0");
    }
  }

  method SetPoint(buf: array<char>, k: nat, ghost was: string)
    requires |was| <= buf.Length && buf[..|was|] == was && k < |was|
    modifies buf
    ensures buf[..|was|] == was[k := '.']
  {
    buf[k] := '.';
  }

  lemma Behind(s: string, before: string, g: string)
    requires |before| + |g| < |s| && s[..|before| + |g|] == before + g
    ensures s[|before|..|before| + |g|] == g
  {
    assert forall i | 0 <= i < |g| :: s[|before| + i] == s[..|before| + |g|][|before| + i] == g[i];
  }

  lemma TextOfDouble(before: string, g: string, k: nat)
    requires k == Find(g, ',')
    ensures k < |g| ==> before + DoubleText(g) == (before + g)[|before| + k := '.']
    ensures k < |g| ==> |DoubleText(g)| == |g|
    ensures k == |g| ==>
              DoubleText(g) == if Find(g, '.') == |g| && Find(g, 'e') == |g| then g + ".0" else g
    ensures before + (g + ".0") == before + g + ".0"
  {
    hide Find;
  }

  /** Writes a double, the next part of what is left. */
  method PutDouble(buf: array<char>, pos: nat, g: string, ghost rest: string, ghost whole: string) returns (pos': nat)
    requires pos <= buf.Length && buf[..pos] + (DoubleText(g) + rest) == whole && |whole| < buf.Length && NUL !in g
    modifies buf
    ensures pos' <= buf.Length && buf[..pos'] + rest == whole
  {
    hide DoubleText;
    ghost var before, x := buf[..pos], DoubleText(g);
    assert |before + (x + rest)| == pos + |x| + |rest|;
    pos' := SerializeDouble(buf, pos, g);
    assert before + x + rest == before + (x + rest);
  }

  /** Writes a line break, the next part of what is left. */
  method PutBreak(o: Options, buf: array<char>, pos: nat, indent: nat, ghost rest: string, ghost whole: string)
    returns (pos': nat)
    requires pos <= buf.Length && buf[..pos] + (Newline(o, indent) + rest) == whole && |whole| < buf.Length
    modifies buf
    ensures pos' <= buf.Length && buf[..pos'] + rest == whole
  {
    hide Newline;
    assert |buf[..pos] + (Newline(o, indent) + rest)| == pos + |Newline(o, indent)| + |rest|;
    pos' := PutNewline(o, buf, pos, indent);
    assert old(buf[..pos]) + Newline(o, indent) + rest == old(buf[..pos]) + (Newline(o, indent) + rest);
  }

  /** Writes a quoted string, the next part of what is left. */
  method PutQuoted(buf: array<char>, pos: nat, str: string, ghost rest: string, ghost whole: string) returns (pos': nat)
    requires pos <= buf.Length && buf[..pos] + (Quoted(str) + rest) == whole && |whole| < buf.Length
    modifies buf
    ensures pos' <= buf.Length && buf[..pos'] + rest == whole
  {
    hide Escaped;
    assert Quoted(str) + rest == "\"" + (Escaped(str) + ("\"" + rest));
    pos' := PutPart(buf, pos, "\"", Escaped(str) + ("\"" + rest), whole);
    assert |buf[..pos'] + (Escaped(str) + ("\"" + rest))| == pos' + |Escaped(str)| + 1 + |rest|;
    ghost var before := buf[..pos'];
    pos' := SerializeString(buf, pos', str);
    assert before + Escaped(str) + ("\"" + rest) == before + (Escaped(str) + ("\"" + rest));
    pos' := PutPart(buf, pos', "\"", rest, whole);
  }

  /** Writes what stands before child c of a container. */
  method PutBefore(o: Options, buf: array<char>, pos: nat, value: Value, c: nat, indent: nat,
                   ghost v: Json, ghost rest: string, ghost whole: string)
    returns (pos': nat)
    requires (value.kind == KObj <==> v.Obj?) && (v.Obj? ==> v.names == value.names && c < |v.names|)
    requires pos <= buf.Length && buf[..pos] + (Separator(o, c, indent) + (Label(o, v, c) + rest)) == whole
    requires |whole| < buf.Length
    modifies buf
    ensures pos' <= buf.Length && buf[..pos'] + rest == whole
  {
    hide Newline, Quoted, Blank;
    pos' := pos;
    ghost var r1 := Newline(o, indent) + (Label(o, v, c) + rest);
    if c > 0 {
      assert Separator(o, c, indent) + (Label(o, v, c) + rest) == ("," + Blank(SpacesAfterCommas(o))) + r1;
      pos' := PutPart(buf, pos', "," + Blank(SpacesAfterCommas(o)), r1, whole);
    } else {
      assert Separator(o, c, indent) + (Label(o, v, c) + rest) == r1;
    }
    pos' := PutBreak(o, buf, pos', indent, Label(o, v, c) + rest, whole);
    if value.kind == KObj {
      ghost var r2 := ":" + Blank(SpacesAfterColons(o)) + rest;
      assert Label(o, v, c) + rest == Quoted(v.names[c]) + r2;
      pos' := PutQuoted(buf, pos', value.names[c], r2, whole);
      pos' := PutPart(buf, pos', ":" + Blank(SpacesAfterColons(o)), rest, whole);
    }
  }

  /** The serializer's step from a container to its next child. */
  method SerializeEnter(o: Options, ghost goal: string, ghost root: Value, value: Value, ghost S: set<Value>,
                        ghost stack: seq<Value>, ghost levels: seq<Level>,
                        buf: array<char>, pos: nat, indent: nat)
    returns (value': Value, ghost stack': seq<Value>, ghost levels': seq<Level>, pos': nat, indent': nat)
    requires Writing(o, goal, root, value, S, stack, levels, buf, pos, indent)
    requires IsParent(value.kind) && value.lengthIterated < |value.values|
    modifies value`lengthIterated, buf
    ensures Writing(o, goal, root, value', S, stack', levels', buf, pos', indent') && Linked(S)
    ensures WorkLeft(value', S, levels') + 1 == old(WorkLeft(value, S, levels))
  {
    hide Tree, LinksOk, Linked, StackOk, Below, Text, TextAfter, WorkAfter, Work;
    hide CursorsOk, LevelsOk, Separator, Label, Blank, CountOf, CountAfter;
    TreeShape(value, S);
    AtLevel(root, value, S, stack, levels);
    var c := value.lengthIterated;
    ghost var v := Tree(value, S);
    EnterText(o, v, c, levels);
    ghost var after := (if c == 0 then levels else levels[..|levels| - 1]) + [Level(v, c + 1)];
    indent' := if c == 0 then indent + o.indentSize else indent;
    assert indent' == |after| * o.indentSize by { OneDeeper(o, |levels|); }
    ghost var rest := Text(o, v.items[c], indent') + TextAfter(o, after);
    pos' := pos;
    if c == 0 {
      ghost var r := Separator(o, c, indent') + (Label(o, v, c) + rest);
      pos' := PutPart(buf, pos', (if value.kind == KObj then "{" else "[") + Blank(SpacesAroundBrackets(o)), r, goal);
    }
    pos' := PutBefore(o, buf, pos', value, c, indent', v, rest, goal);
    value', stack', levels' := Enter(root, value, S, stack, levels);
  }

  lemma OneDeeper(o: Options, depth: nat)
    ensures depth * o.indentSize + o.indentSize == (depth + 1) * o.indentSize
  {
  }

  /** The serializer's step out of a container. */
  method SerializeLeave(o: Options, ghost goal: string, ghost root: Value, value: Value, ghost S: set<Value>,
                        ghost stack: seq<Value>, ghost levels: seq<Level>,
                        buf: array<char>, pos: nat, indent: nat)
    returns (pos': nat, indent': nat)
    requires Writing(o, goal, root, value, S, stack, levels, buf, pos, indent)
    requires IsParent(value.kind) && value.lengthIterated == |value.values| > 0
    modifies value`lengthIterated, buf
    ensures |stack| == |levels| > 0
    ensures Writing(o, goal, root, Up(root, value), S, stack[..|stack| - 1], levels[..|levels| - 1], buf, pos', indent')
    ensures WorkLeft(Up(root, value), S, levels[..|levels| - 1]) + 1 == old(WorkLeft(value, S, levels))
  {
    hide Tree, LinksOk, Linked, StackOk, Below, Text, TextAfter;
    hide WorkAfter, Work, CursorsOk, LevelsOk, Blank, CountOf, CountAfter, Newline;
    TreeShape(value, S);
    AtLevel(root, value, S, stack, levels);
    StepUp(o, levels);
    DepthLess(o, |levels|);
    indent' := indent - o.indentSize;
    pos' := PutClosing(o, buf, pos, indent', value.kind == KObj, TextAfter(o, levels[..|levels| - 1]), goal);
    Leave(root, value, S, stack, levels);
  }

  /** Writes the break and the bracket at the end of a container. */
  method PutClosing(o: Options, buf: array<char>, pos: nat, indent: nat, isObject: bool, ghost rest: string,
                    ghost whole: string)
    returns (pos': nat)
    requires pos <= buf.Length && |whole| < buf.Length
    requires var bracket := if isObject then "}" else "]";
             buf[..pos] + (Newline(o, indent) + (Blank(SpacesAroundBrackets(o)) + (bracket + rest))) == whole
    modifies buf
    ensures pos' <= buf.Length && buf[..pos'] + rest == whole
  {
    hide Newline, Blank;
    ghost var bracket := if isObject then "}" else "]";
    pos' := PutBreak(o, buf, pos, indent, Blank(SpacesAroundBrackets(o)) + (bracket + rest), whole);
    pos' := PutPart(buf, pos', Blank(SpacesAroundBrackets(o)), bracket + rest, whole);
    pos' := PutPart(buf, pos', if isObject then "}" else "]", rest, whole);
  }

  /** Writes a value without children, the next part of what is left. */
  method PutLeaf(o: Options, buf: array<char>, pos: nat, value: Value, ghost S: set<Value>,
                 ghost indent: nat, ghost rest: string, ghost whole: string)
    returns (pos': nat)
    requires Linked(S) && value in S && (IsParent(value.kind) ==> value.values == [])
    requires (value.kind == KInt ==> -INT_MAX <= value.integer) && (value.kind == KDouble ==> NUL !in value.str)
    requires pos <= buf.Length && |whole| < buf.Length
    requires buf[..pos] + (Text(o, Tree(value, S), indent) + rest) == whole
    modifies buf
    ensures pos' <= buf.Length && buf[..pos'] + rest == whole
  {
    hide Quoted, Digits, Linked, Rest, LinksOk, DoubleText;
    TreeShape(value, S);
    match value.kind {
      case KNull => pos' := PutPart(buf, pos, "null", rest, whole);
      case KBool => pos' := PutPart(buf, pos, if value.boolean then "true" else "false", rest, whole);
      case KInt =>
        assert |buf[..pos] + (IntText(value.integer) + rest)| == pos + |IntText(value.integer)| + |rest|;
        ghost var before := buf[..pos];
        pos' := SerializeInteger(buf, pos, value.integer);
        assert before + IntText(value.integer) + rest == before + (IntText(value.integer) + rest);
      case KDouble => pos' := PutDouble(buf, pos, value.str, rest, whole);
      case KStr => pos' := PutQuoted(buf, pos, value.str, rest, whole);
      case KArr => pos' := PutPart(buf, pos, "[]", rest, whole);
      case KObj => pos' := PutPart(buf, pos, "{}", rest, whole);
    }
  }

  /** The serializer's step over a value without children. */
  method SerializeOver(o: Options, ghost goal: string, ghost root: Value, value: Value, ghost S: set<Value>,
                       ghost stack: seq<Value>, ghost levels: seq<Level>,
                       buf: array<char>, pos: nat, indent: nat)
    returns (pos': nat)
    requires Writing(o, goal, root, value, S, stack, levels, buf, pos, indent)
    requires value.lengthIterated == 0 && (IsParent(value.kind) ==> value.values == [])
    requires (value.kind == KInt ==> -INT_MAX <= value.integer) && (value.kind == KDouble ==> NUL !in value.str)
    modifies buf
    ensures Writing(o, goal, root, Up(root, value), S, stack, levels, buf, pos', indent)
    ensures WorkLeft(Up(root, value), S, levels) + 1 == WorkLeft(value, S, levels)
  {
    hide Tree, Linked, Walking, Writing, Text, TextAfter, WorkLeft, LevelsOk, Up;
    LeafFacts(o, goal, root, value, S, stack, levels, buf, pos, indent);
    pos' := PutLeaf(o, buf, pos, value, S, indent, TextAfter(o, levels), goal);
    LeafWritten(o, goal, root, Up(root, value), S, stack, levels, buf, pos', indent);
  }

  /** At a value without children: the walk goes up when its text is written. */
  lemma LeafFacts(o: Options, goal: string, root: Value, value: Value, S: set<Value>, stack: seq<Value>,
                  levels: seq<Level>, buf: array<char>, pos: nat, indent: nat)
    requires Writing(o, goal, root, value, S, stack, levels, buf, pos, indent)
    requires value.lengthIterated == 0 && (IsParent(value.kind) ==> value.values == [])
    ensures Linked(S) && value in S && LevelsOk(levels) && indent == |levels| * o.indentSize
    ensures pos <= buf.Length && |goal| < buf.Length
    ensures buf[..pos] + (Text(o, Tree(value, S), indent) + TextAfter(o, levels)) == goal
    ensures Walking(root, Up(root, value), S, stack, levels)
    ensures Up(root, value) != null ==> Up(root, value) in S && Up(root, value).lengthIterated > 0
    ensures WorkLeft(Up(root, value), S, levels) + 1 == WorkLeft(value, S, levels)
  {
    hide Tree, LinksOk, Linked, StackOk, Below, Text, Up;
    hide TextAfter, WorkAfter, Work, CursorsOk, LevelsOk, CountOf, CountAfter;
    TreeShape(value, S);
    LeafCount(o, Tree(value, S), |levels|);
    LeafUp(root, value, S, stack, levels);
  }

  lemma LeafWritten(o: Options, goal: string, root: Value, value: Value?, S: set<Value>, stack: seq<Value>,
                    levels: seq<Level>, buf: array<char>, pos: nat, indent: nat)
    requires Walking(root, value, S, stack, levels) && LevelsOk(levels) && indent == |levels| * o.indentSize
    requires Linked(S) && (value != null ==> value in S && value.lengthIterated > 0)
    requires pos <= buf.Length && |goal| < buf.Length && buf[..pos] + TextAfter(o, levels) == goal
    ensures Writing(o, goal, root, value, S, stack, levels, buf, pos, indent)
  {
    hide Tree, Linked, Walking, Text, TextAfter, LevelsOk;
    assert "" + TextAfter(o, levels) == TextAfter(o, levels);
  }

  /** One iteration of the serializer's loop. */
  method SerializeStep(o: Options, ghost goal: string, ghost root: Value, value: Value, ghost S: set<Value>,
                       ghost stack: seq<Value>, ghost levels: seq<Level>, buf: array<char>, pos: nat, indent: nat)
    returns (value': Value?, ghost at: Value?, ghost stack': seq<Value>, ghost levels': seq<Level>, pos': nat,
             indent': nat)
    requires Writing(o, goal, root, value, S, stack, levels, buf, pos, indent) && Printable(Tree(root, S))
    modifies S`lengthIterated, buf
    ensures Writing(o, goal, root, at, S, stack', levels', buf, pos', indent') && Linked(S)
    ensures value' == if at == null then root.parent else at
    ensures WorkLeft(at, S, levels') + 1 == old(WorkLeft(value, S, levels))
  {
    hide Tree, Linked, Printable, Writing, LevelsOk, WorkLeft, CountOf, Work, WorkAfter, Walking, TextAfter;
    WriteBranch(o, goal, root, value, S, stack, levels, buf, pos, indent);
    VisitedPrintable(o, goal, root, value, S, stack, levels, buf, pos, indent);
    WritingFacts(o, goal, root, value, S, stack, levels, buf, pos, indent);
    if IsParent(value.kind) && value.lengthIterated < |value.values| {
      value', stack', levels', pos', indent' :=
        SerializeEnter(o, goal, root, value, S, stack, levels, buf, pos, indent);
      at := value';
    } else if IsParent(value.kind) && value.values != [] {
      pos', indent' := SerializeLeave(o, goal, root, value, S, stack, levels, buf, pos, indent);
      value', at, stack', levels' := value.parent, Up(root, value), stack[..|stack| - 1], levels[..|levels| - 1];
    } else {
      pos' := SerializeOver(o, goal, root, value, S, stack, levels, buf, pos, indent);
      value', at, stack', levels', indent' := value.parent, Up(root, value), stack, levels, indent;
    }
    WritingFacts(o, goal, root, at, S, stack', levels', buf, pos', indent');
  }

  /** Writes the text of a tree into a buffer that the measurer found big enough, with
      a terminator, and leaves every cursor at zero. From a value that has a parent the walk
      goes on to its ancestors, and their texts follow. */
  method SerializeEx(buf: array<char>, start: Value, o: Options, ghost S: set<Value>)
    requires Valid(S) && start in S && AllPrintable(Ups(start, S))
    requires buf.Length >= MeasuredAll(o, Ups(start, S))
    modifies S`lengthIterated, buf
    ensures Valid(S)
    ensures var text := Texts(o, Ups(start, S));
            |text| < buf.Length && buf[..|text|] == text && buf[|text|] == NUL
  {
    hide Tree, Linked, Texts, Ups, Printable, LevelsOk, RoomOk, MeasuredAll, Idle;
    hide Walking, Writing, Rising, WorkLeft, AllPrintable, Valid;
    ValidIs(S);
    var pos: nat, indent: nat := 0, 0;
    var value: Value? := start;
    ghost var root: Value, done: seq<Json>, stack: seq<Value>, levels: seq<Level> := start, [], [], [];
    RiseFirst(start, S);
    NoTexts(o);
    TextRises(o, start, start, S, [], buf, 0);
    while value != null
      invariant Rising(start, root, S, done) && Linked(S) && root in S && (value == null ==> root.parent == null)
      invariant Writing(o, Texts(o, done + [Tree(root, S)]), root, value, S, stack, levels, buf, pos, indent)
      invariant 0 <= root.tree.rank - root.rank && (value != null ==> value in S) && LevelsOk(levels)
      decreases root.tree.rank - root.rank, WorkLeft(value, S, levels)
    {
      RiseFacts(start, root, S, done);
      ghost var goal, at := Texts(o, done + [Tree(root, S)]), value;
      value, at, stack, levels, pos, indent := SerializeStep(o, goal, root, value, S, stack, levels, buf, pos, indent);
      if at == null && value != null {
        NextRises(o, start, root, S, done, stack, levels, buf, pos, indent);
        root, done := root.parent, done + [Tree(root, S)];
      }
      WritingFacts(o, Texts(o, done + [Tree(root, S)]), root, value, S, stack, levels, buf, pos, indent);
    }
    RiseFacts(start, root, S, done);
    SerializeEnds(o, Texts(o, done + [Tree(root, S)]), root, S, stack, levels, buf, pos, indent);
    buf[pos] := NUL;
    assert buf[..pos] == Texts(o, Ups(start, S));
    assert forall n | n in S :: old(RoomOk(n)) ==> RoomOk(n);
    ValidIs(S);
  }

  lemma ValidIs(S: set<Value>)
    ensures Valid(S) <==> Linked(S) && Idle(S) && forall n | n in S :: RoomOk(n)
  {
    hide Linked, Idle, RoomOk;
  }

  /** When the text under one root is written, the walk goes on under its parent. */
  lemma NextRises(o: Options, start: Value, root: Value, S: set<Value>, done: seq<Json>, stack: seq<Value>,
                  levels: seq<Level>, buf: array<char>, pos: nat, indent: nat)
    requires Rising(start, root, S, done) && root.parent != null && buf.Length >= MeasuredAll(o, Ups(start, S))
    requires Writing(o, Texts(o, done + [Tree(root, S)]), root, null, S, stack, levels, buf, pos, indent)
    ensures root.parent in S && stack == [] && levels == [] && indent == 0 && LevelsOk([])
    ensures 0 <= root.parent.tree.rank - root.parent.rank < root.tree.rank - root.rank
    ensures var done' := done + [Tree(root, S)];
            && Rising(start, root.parent, S, done') && Linked(S)
            && Writing(o, Texts(o, done' + [Tree(root.parent, S)]), root.parent, root.parent, S, [], [], buf, pos, 0)
  {
    hide Tree, Linked, Texts, Ups, LevelsOk, Walking, Writing, Rising, MeasuredAll;
    RiseFacts(start, root, S, done);
    RiseOn(start, root, S, done);
    RiseFacts(start, root.parent, S, done + [Tree(root, S)]);
    SerializeEnds(o, Texts(o, done + [Tree(root, S)]), root, S, stack, levels, buf, pos, indent);
    TextRises(o, start, root.parent, S, done + [Tree(root, S)], buf, pos);
  }

  /** The walk under one more node begins, when the texts of those before are written. */
  lemma TextRises(o: Options, start: Value, root: Value, S: set<Value>, done: seq<Json>, buf: array<char>, pos: nat)
    requires Rising(start, root, S, done) && Idle(S) && buf.Length >= MeasuredAll(o, Ups(start, S))
    requires pos <= buf.Length && buf[..pos] == Texts(o, done)
    ensures Writing(o, Texts(o, done + [Tree(root, S)]), root, root, S, [], [], buf, pos, 0) && LevelsOk([])
  {
    hide Tree, Linked, Text, Texts, Walking, Rising, Ups, MeasuredAll;
    RiseFacts(start, root, S, done);
    WalkStarts(root, S);
    NothingAfter(o);
    var v := Tree(root, S);
    TextsSnoc(o, done, v);
    Room(o, done + [v], Ups(start, S));
    assert 0 * o.indentSize == 0 && Text(o, v, 0) + "" == Text(o, v, 0);
  }

  /** The buffer holds the first of the texts. */
  lemma Room(o: Options, done: seq<Json>, vs: seq<Json>)
    requires done <= vs
    ensures |Texts(o, done)| < MeasuredAll(o, vs)
  {
    hide Text, Texts, NewlinesOf, SlackOf;
    assert done + vs[|done|..] == vs;
    TextsSplit(o, done, vs[|done|..]);
  }

  lemma NoTexts(o: Options)
    ensures Texts(o, []) == ""
  {
  }

  lemma TextsSnoc(o: Options, vs: seq<Json>, v: Json)
    ensures Texts(o, vs + [v]) == Texts(o, vs) + Text(o, v, 0)
  {
    assert (vs + [v])[..|vs|] == vs;
  }

  lemma WritingFacts(o: Options, goal: string, root: Value, value: Value?, S: set<Value>, stack: seq<Value>,
                     levels: seq<Level>,
                     buf: array<char>, pos: nat, indent: nat)
    requires Writing(o, goal, root, value, S, stack, levels, buf, pos, indent)
    ensures Linked(S) && (value != null ==> value in S) && LevelsOk(levels)
  {
    hide Tree, Linked, StackOk, CursorsOk, Text;
  }

  lemma WriteBranch(o: Options, goal: string, root: Value, value: Value, S: set<Value>, stack: seq<Value>,
                    levels: seq<Level>,
                    buf: array<char>, pos: nat, indent: nat)
    requires Writing(o, goal, root, value, S, stack, levels, buf, pos, indent)
    ensures IsParent(value.kind) ==> value.lengthIterated <= |value.values|
    ensures !IsParent(value.kind) ==> value.lengthIterated == 0
    ensures value != root ==> value.parent != null
  {
    hide Tree, Linked, StackOk, CursorsOk, Text, TextAfter;
    AtLevel(root, value, S, stack, levels);
    if value != root {
      NotRoot(root, value, S, stack, levels);
    }
  }

  /** Every open container of a printable tree is printable. */
  lemma {:induction false} OpenPrintable(root: Value, S: set<Value>, stack: seq<Value>, levels: seq<Level>, j: nat)
    requires Linked(S) && root in S && StackOk(root, S, stack, levels) && Printable(Tree(root, S)) && j < |stack|
    ensures Printable(Tree(stack[j], S))
    decreases j
  {
    if j > 0 {
      OpenPrintable(root, S, stack, levels, j - 1);
      ChildPrintable(stack[j], S);
    }
  }

  lemma ChildPrintable(n: Value, S: set<Value>)
    requires Linked(S) && n in S && n.parent != null && n.parent in S && Printable(Tree(n.parent, S))
    ensures Printable(Tree(n, S))
  {
    assert LinksOk(n, S);
    TreeShape(n.parent, S);
    hide Tree;
    var i :| 0 <= i < |n.parent.values| && n.parent.values[i] == n;
    assert LinksOk(n.parent, S);
    PrintableChild(Tree(n.parent, S), i);
  }

  lemma VisitedPrintable(o: Options, goal: string, root: Value, value: Value, S: set<Value>, stack: seq<Value>,
                         levels: seq<Level>,
                         buf: array<char>, pos: nat, indent: nat)
    requires Writing(o, goal, root, value, S, stack, levels, buf, pos, indent) && Printable(Tree(root, S))
    ensures (value.kind == KInt ==> -INT_MAX <= value.integer) && (value.kind == KDouble ==> NUL !in value.str)
  {
    hide Text, TextAfter, CursorsOk, Linked, LinksOk;
    assert Printable(Tree(value, S)) by {
      hide Tree, Printable;
      if stack != [] {
        OpenPrintable(root, S, stack, levels, |stack| - 1);
        if value.lengthIterated == 0 {
          ChildPrintable(value, S);
        }
      }
    }
  }

  lemma SerializeEnds(o: Options, goal: string, root: Value, S: set<Value>, stack: seq<Value>, levels: seq<Level>,
                      buf: array<char>, pos: nat, indent: nat)
    requires Writing(o, goal, root, null, S, stack, levels, buf, pos, indent)
    ensures Idle(S) && Linked(S) && root in S && stack == [] && levels == [] && indent == 0
    ensures pos < buf.Length && pos == |goal| && buf[..pos] == goal
  {
    hide Tree, Linked, StackOk, CursorsOk, Text, Idle, LevelsOk, TextAfter;
    assert levels == [];
    WalkEnds(root, S);
    NothingAfter(o);
    assert TextLeft(o, null, S, levels) == "" + "";
    assert buf[..pos] + "" == buf[..pos];
  }
}
