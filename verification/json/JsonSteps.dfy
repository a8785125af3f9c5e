/** Every step of the parsing machine keeps its invariant.

    Each lemma is about one branch of the loop body: from a good state, the state
    that the branch leaves is good, one or more characters further on. */
module JsonSteps {
  import opened Wrappers
  import opened JsonGrammar
  import opened JsonArena
  import opened JsonMachine

  function NewFrame(isObject: bool): Frame {
    if isObject then FObj([], [], "") else FArr([])
  }

  /** After an opening bracket. */
  function Opened(s: State, isObject: bool): State
    requires |s.nextAlloc| == |s.nodes| && (if s.firstPass then s.alloc < |s.nodes| else 0 <= s.alloc < |s.nodes|)
  {
    NewNode(s, if isObject then KObj else KArr).(
      flags := s.flags.(seekValue := !isObject),
      stack := s.stack + [NewFrame(isObject)],
      mode := if isObject then InObject(false) else Seek(false, false))
  }

  lemma OpenedResume(t: string, comments: bool, fill: bool, stack: seq<Frame>, p: nat, isObject: bool)
    requires p <= |t| && AllWaiting(stack) && At(t, p) == if isObject then '{' else '['
    ensures var m := if isObject then InObject(false) else Seek(false, false);
            var stack' := stack + [NewFrame(isObject)];
            && p < |t| && Shape(fill, m, stack')
            && Resume(t, comments, fill, stack', m, p + 1) == Resume(t, comments, fill, stack, AtValue, p)
    ensures var r := Value(t, comments, p); r.Ok? ==> if isObject then r.value.Obj? else r.value.Arr?
  {
    var stack' := stack + [NewFrame(isObject)];
    assert stack'[..|stack'| - 1] == stack;
    hide Result, Array, Object;
  }

  lemma OpenedNodes(t: string, comments: bool, s: State, p: nat, isObject: bool)
    requires Good(t, comments, s, p) && s.mode == AtValue && s.comment == NoComment
    requires At(t, p) == if isObject then '{' else '['
    requires AllWaiting(s.stack) && p <= |t|
    ensures |s.nextAlloc| == |s.nodes| && (if s.firstPass then s.alloc < |s.nodes| else 0 <= s.alloc < |s.nodes|)
    ensures var s' := Opened(s, isObject); NodesAgree(s') && PointersAgree(s', Used(s'.mode, s'.stack))
  {
    hide Good, Result, Value, Resume, Emit, StackNodes, FrameNode, Size, StackSize, TopIndex, Prepared, Skip;
    NewNodeOk(t, comments, s, p, if isObject then KObj else KArr);
    NextNode(t, comments, s, p);
    OpenedResume(t, comments, !s.firstPass, s.stack, p, isObject);
    var base := StackSize(s.stack);
    PushNodes(!s.firstPass, s.stack, NewFrame(isObject), s.plan);
    FreshFrame(!s.firstPass, isObject, TopIndex(s.stack), base, s.plan,
               if s.firstPass then Null else Value(t, comments, p).value);
  }

  lemma OpenedOk(t: string, comments: bool, s: State, p: nat, isObject: bool)
    requires Good(t, comments, s, p) && s.mode == AtValue && s.comment == NoComment
    requires At(t, p) == if isObject then '{' else '['
    ensures |s.nextAlloc| == |s.nodes| && (if s.firstPass then s.alloc < |s.nodes| else 0 <= s.alloc < |s.nodes|)
    ensures Good(t, comments, Opened(s, isObject), p + 1)
  {
    hide NodesAgree, PointersAgree, Result, Value, Resume, Used;
    OpenedNodes(t, comments, s, p, isObject);
    OpenedResume(t, comments, !s.firstPass, s.stack, p, isObject);
  }

  // ------------------------------------------- white space, comments and commas

  /** Modes in which white space and comments are skipped. */
  predicate Skipping(m: Mode) {
    m.Seek? || m.InObject? || m.Finished?
  }

  /** The character at p is the next one that matters. */
  predicate Matters(t: string, comments: bool, p: nat) {
    !IsSpace(At(t, p)) && !(comments && At(t, p) == '/')
  }

  /** Only the flags and the mode differ, and neither mode has a node of its own. */
  predicate SameNodes(s: State, s': State) {
    && s' == s.(flags := s'.flags, mode := s'.mode, comment := s'.comment,
                stringBase := s'.stringBase, stringLength := s'.stringLength)
    && !HasLeaf(s.mode) && !HasLeaf(s'.mode)
    && (if s.mode.Finished? then s'.mode == s.mode else !s'.mode.Finished?)
  }

  lemma SameNodesOk(t: string, comments: bool, s: State, s': State, p: nat)
    requires Good(t, comments, s, p) && SameNodes(s, s')
    ensures NodesAgree(s') && PointersAgree(s', Used(s'.mode, s'.stack)) && PlanAgrees(t, comments, s')
  {
    hide Resume, ResumeAfter, StackNodes, Emit, StackSize, TopIndex, Chain, FlagsAgree;
  }

  lemma SpaceOk(t: string, comments: bool, s: State, p: nat)
    requires Good(t, comments, s, p) && s.comment == NoComment && Skipping(s.mode)
    requires IsSpace(At(t, p))
    ensures Good(t, comments, s, p + 1)
  {
    hide Resume, NodesAgree, PointersAgree, FlagsAgree, Used, Shape;
    SkipSame(t, comments, !s.firstPass, s.stack, s.mode, p, p + 1);
  }

  function Commented(s: State, comment: Comment): State {
    s.(comment := comment,
       flags := s.flags.(lineComment := comment.LineComment?, blockComment := comment.BlockComment?))
  }

  lemma CommentOpens(t: string, comments: bool, s: State, p: nat, comment: Comment)
    requires Good(t, comments, s, p) && s.comment == NoComment && Skipping(s.mode)
    requires comments && At(t, p) == '/' && p + 1 < |t|
    requires (comment.LineComment? && t[p + 1] == '/') || (comment.BlockComment? && t[p + 1] == '*')
    ensures Good(t, comments, Commented(s, comment), p + 2)
  {
    hide Resume, NodesAgree, PointersAgree, Used, Shape;
    SameNodesOk(t, comments, s, Commented(s, comment), p);
    var k := Leave(t, comment, p + 2);
    if k.Some? {
      SkipSame(t, comments, !s.firstPass, s.stack, s.mode, p, k.value);
    } else {
      SkipFails(t, comments, !s.firstPass, s.stack, s.mode, p);
    }
  }

  lemma CommentEnds(t: string, comments: bool, s: State, p: nat, q: nat)
    requires Good(t, comments, s, p) && s.comment != NoComment
    requires Leave(t, s.comment, p) == Some(q)
    ensures Good(t, comments, Commented(s, NoComment), q)
  {
    hide Resume, NodesAgree, PointersAgree, Used, Shape, LineEnd, BlockEnd;
    SameNodesOk(t, comments, s, Commented(s, NoComment), p);
  }

  lemma CommentGoesOn(t: string, comments: bool, s: State, p: nat)
    requires Good(t, comments, s, p) && s.comment != NoComment && p < |t|
    requires Leave(t, s.comment, p) == Leave(t, s.comment, p + 1)
    ensures Good(t, comments, s, p + 1)
  {
    hide Resume, NodesAgree, PointersAgree, Used, Shape, Leave;
  }

  /** A comment opening that is neither line nor block fails. */
  lemma CommentFails(t: string, comments: bool, s: State, p: nat)
    requires Good(t, comments, s, p) && s.comment == NoComment && Skipping(s.mode)
    requires comments && At(t, p) == '/' && (p + 1 >= |t| || (t[p + 1] != '/' && t[p + 1] != '*'))
    ensures Document(t, comments).None?
  {
    hide Resume, NodesAgree, PointersAgree, Used, Shape, FlagsAgree;
    SkipFails(t, comments, !s.firstPass, s.stack, s.mode, p);
  }

  // --------------------------------------------------------- seeking a value

  function Chosen(s: State): State {
    s.(mode := AtValue, flags := s.flags.(seekValue := false))
  }

  lemma ChosenOk(t: string, comments: bool, s: State, p: nat)
    requires Good(t, comments, s, p) && s.comment == NoComment && s.mode == Seek(false, false)
    requires Matters(t, comments, p)
    requires s.stack != [] && s.stack[|s.stack| - 1].FArr? ==> At(t, p) != ']'
    ensures Good(t, comments, Chosen(s), p)
  {
    hide NodesAgree, PointersAgree, Used, Result, Resume;
    SameNodesOk(t, comments, s, Chosen(s), p);
    SeekAtValue(t, comments, !s.firstPass, s.stack, p);
    assert Resume(t, comments, !s.firstPass, s.stack, AtValue, p)
           == Result(t, comments, s.stack, Value(t, comments, p)) by {
      ResumeAtValue(t, comments, !s.firstPass, s.stack, p);
    }
  }

  lemma ResumeAtValue(t: string, comments: bool, fill: bool, stack: seq<Frame>, p: nat)
    requires p <= |t| && AllWaiting(stack)
    ensures Resume(t, comments, fill, stack, AtValue, p) == Result(t, comments, stack, Value(t, comments, p))
  {
    hide Result, Value;
  }

  /** The comma or colon that is due has come. */
  function Separated(s: State): State {
    s.(mode := if s.mode.InObject? then InObject(false) else Seek(false, false),
       flags := s.flags.(needComma := false, needColon := false))
  }

  lemma SeparatedResume(t: string, comments: bool, fill: bool, stack: seq<Frame>, m: Mode, p: nat)
    requires p <= |t| && Shape(fill, m, stack) && Matters(t, comments, p)
    requires m == Seek(true, false) || m == Seek(false, true) || m == InObject(true)
    requires At(t, p) == if m.Seek? && m.needColon then ':' else ','
    ensures p < |t|
    ensures Resume(t, comments, fill, stack, m, p)
         == Resume(t, comments, fill, stack, if m.InObject? then InObject(false) else Seek(false, false), p + 1)
  {
    hide Result, Value;
  }

  lemma SeparatedOk(t: string, comments: bool, s: State, p: nat)
    requires Good(t, comments, s, p) && s.comment == NoComment && Matters(t, comments, p)
    requires s.mode == Seek(true, false) || s.mode == Seek(false, true) || s.mode == InObject(true)
    requires At(t, p) == if s.mode.Seek? && s.mode.needColon then ':' else ','
    ensures Good(t, comments, Separated(s), p + 1)
  {
    hide NodesAgree, PointersAgree, Used, Resume;
    SameNodesOk(t, comments, s, Separated(s), p);
    SeparatedResume(t, comments, !s.firstPass, s.stack, s.mode, p);
  }

  /** Any other character than the due comma or colon fails, unless it closes. */
  lemma SeparatorMissing(t: string, comments: bool, s: State, p: nat)
    requires Good(t, comments, s, p) && s.comment == NoComment && Matters(t, comments, p)
    requires s.mode == Seek(true, false) || s.mode == Seek(false, true)
    requires At(t, p) != if s.mode.needColon then ':' else ','
    requires s.mode.needComma ==> At(t, p) != ']'
    ensures Document(t, comments).None?
  {
    hide NodesAgree, PointersAgree, Used, Value, FlagsAgree;
  }

  /** A closing bracket where no array is open fails. */
  lemma StrayBracket(t: string, comments: bool, s: State, p: nat)
    requires Good(t, comments, s, p) && s.comment == NoComment && At(t, p) == ']' && s.mode.Seek?
    requires s.stack == [] || s.stack[|s.stack| - 1].FObj?
    ensures Document(t, comments).None?
  {
    hide NodesAgree, PointersAgree, Used, FlagsAgree;
    assert Skip(t, comments, p) == Some(p) && Value(t, comments, p).Fail?;
    assert Resume(t, comments, !s.firstPass, s.stack, s.mode, p).None?;
  }

  /** In an object only a name, a comma that is due, or the closing brace is allowed. */
  lemma ObjectFails(t: string, comments: bool, s: State, p: nat)
    requires Good(t, comments, s, p) && s.comment == NoComment && Matters(t, comments, p) && s.mode.InObject?
    requires At(t, p) != '}' && (At(t, p) == '"' ==> s.mode.comma) && (At(t, p) == ',' ==> !s.mode.comma)
    ensures Document(t, comments).None?
  {
    hide NodesAgree, PointersAgree, Used, FlagsAgree, Colon;
  }

  lemma FinishedOk(t: string, comments: bool, s: State, p: nat)
    requires Good(t, comments, s, p) && s.comment == NoComment && Matters(t, comments, p) && s.mode.Finished?
    ensures Document(t, comments) == if At(t, p) == NUL then Some(s.mode.v) else None
    ensures At(t, p) == NUL ==> s.nodes == Emit(!s.firstPass, s.mode.v, -1, 0)
    ensures At(t, p) == NUL ==> Chain(s.nextAlloc) && |s.nextAlloc| == |s.nodes| && s.root == 0
  {
    hide FlagsAgree, Document, Emit;
    if At(t, p) == NUL && !s.firstPass {
      var w := Written(true, s.mode, s.stack, s.plan);
      assert w == Emit(true, s.mode.v, -1, 0);
      assert |s.plan| == Size(s.mode.v);
    }
  }

  // ------------------------------------------------------ values without parts

  /** Whether the machine may allocate; true at every value. */
  predicate CanAllocate(s: State) {
    |s.nextAlloc| == |s.nodes| && (if s.firstPass then s.alloc < |s.nodes| else 0 <= s.alloc < |s.nodes|)
  }

  /** The state after allocating a leaf whose node is then x. */
  function Leafed(s: State, kind: Kind, x: Node, m: Mode, flags: Flags, base: nat, length: nat, digits: nat): State
    requires CanAllocate(s)
  {
    var n := NewNode(s, kind);
    n.(nodes := if 0 <= n.top < |n.nodes| then n.nodes[n.top := x] else n.nodes,
       mode := m, flags := flags, stringBase := base, stringLength := length, numDigits := digits)
  }

  /** A leaf's node goes where the written part ends. */
  lemma LeafedNodes(t: string, comments: bool, s: State, p: nat, kind: Kind, x: Node, m: Mode, flags: Flags,
                    base: nat, length: nat, digits: nat)
    requires Good(t, comments, s, p) && s.mode == AtValue && s.comment == NoComment
    requires Shape(!s.firstPass, m, s.stack)
    requires LeafNodes(!s.firstPass, m, s.stack, s.plan) == [x]
    requires HasLeaf(m) && Used(m, s.stack) == StackSize(s.stack) + 1
    ensures CanAllocate(s)
    ensures var s' := Leafed(s, kind, x, m, flags, base, length, digits);
            NodesAgree(s') && PointersAgree(s', Used(s'.mode, s'.stack)) && PlanAgrees(t, comments, s')
  {
    hide StackNodes, StackSize, TopIndex, LeafNodes, Prepared, NewNode, Chain, Shape, Document, Emit, HasLeaf;
    assert PlanAgrees(t, comments, s);
    hide Good, PlanAgrees;
    NewNodeOk(t, comments, s, p, kind);
    NextNode(t, comments, s, p);
    PlanKept(t, comments, s, Leafed(s, kind, x, m, flags, base, length, digits));
    var n := NewNode(s, kind);
    var w := StackNodes(!s.firstPass, s.stack, s.plan);
    assert n.nodes[n.top := x] == w + [x] + if s.firstPass then [] else s.plan[n.top + 1..];
  }

  lemma PlanKept(t: string, comments: bool, s: State, s': State)
    requires PlanAgrees(t, comments, s) && s'.plan == s.plan && s'.firstPass == s.firstPass
    ensures PlanAgrees(t, comments, s')
  {
  }

  function Quoted(s: State): State
    requires CanAllocate(s)
  {
    var x := StringNode(!s.firstPass, TopIndex(s.stack), StackSize(s.stack), s.plan, "");
    Leafed(s, KStr, x, InString(false, false, ""), s.flags.(inString := true), 0, 0, s.numDigits)
  }

  lemma QuotedResume(t: string, comments: bool, fill: bool, stack: seq<Frame>, p: nat)
    requires p <= |t| && AllWaiting(stack) && At(t, p) == '"'
    ensures p < |t|
    ensures Resume(t, comments, fill, stack, InString(false, false, ""), p + 1)
         == Resume(t, comments, fill, stack, AtValue, p)
  {
    hide StringRest;
    var r := StringRest(t, p + 1, 0);
    assert r.Ok? ==> "" + r.value == r.value;
  }

  lemma QuotedIs(s: State)
    requires s.mode == AtValue && s.comment == NoComment && Shape(!s.firstPass, s.mode, s.stack) && FlagsAgree(s)
    requires CanAllocate(s)
    ensures var m := InString(false, false, "");
            && AllWaiting(s.stack) && Shape(!s.firstPass, m, s.stack) && HasLeaf(m)
            && Used(m, s.stack) == StackSize(s.stack) + 1
            && LeafNodes(!s.firstPass, m, s.stack, s.plan)
               == [StringNode(!s.firstPass, TopIndex(s.stack), StackSize(s.stack), s.plan, "")]
            && Quoted(s) == Leafed(s, KStr,
                                   StringNode(!s.firstPass, TopIndex(s.stack), StackSize(s.stack), s.plan, ""), m,
                                   s.flags.(inString := true), 0, 0, s.numDigits)
    ensures var s' := Quoted(s);
            && s'.mode == InString(false, false, "") && s'.comment == NoComment && s'.stack == s.stack
            && s'.firstPass == s.firstPass && FlagsAgree(s')
  {
    hide StackSize, TopIndex, StringNode, AllWaiting;
  }

  lemma QuotedOk(t: string, comments: bool, s: State, p: nat)
    requires Good(t, comments, s, p) && s.mode == AtValue && s.comment == NoComment && At(t, p) == '"'
    ensures CanAllocate(s) && Good(t, comments, Quoted(s), p + 1)
  {
    hide NodesAgree, PointersAgree, Resume, Used, PlanAgrees, Document, FlagsAgree, Quoted, Shape;
    hide StackSize, TopIndex, StringNode, NewNode, AllWaiting;
    NewNodeOk(t, comments, s, p, KStr);
    QuotedIs(s);
    QuotedResume(t, comments, !s.firstPass, s.stack, p);
    LeafedNodes(t, comments, s, p, KStr, StringNode(!s.firstPass, TopIndex(s.stack), StackSize(s.stack), s.plan, ""),
                InString(false, false, ""), s.flags.(inString := true), 0, 0, s.numDigits);
  }

  function KindOf(v: Json): Kind {
    match v
    case Null => KNull
    case Bool(_) => KBool
    case Int(_) => KInt
    case Double(_) => KDouble
    case Str(_) => KStr
    case Arr(_) => KArr
    case Obj(_, _) => KObj
  }

  /** After the words `true`, `false` and `null`. */
  function Worded(s: State, v: Json): State
    requires CanAllocate(s)
  {
    var n := NewNode(s, KindOf(v));
    n.(nodes := if v == Bool(true) && 0 <= n.top < |n.nodes| then n.nodes[n.top := n.nodes[n.top].(boolean := true)]
                else n.nodes,
       mode := Closing(v), flags := s.flags.(next := true))
  }

  /** The node of a value without parts is complete as soon as it is allocated. */
  lemma PlainNode(t: string, comments: bool, s: State, p: nat, v: Json, x: Node)
    requires Good(t, comments, s, p) && s.mode == AtValue && s.comment == NoComment
    requires v.Null? || v.Bool? || ((v.Int? || v.Double?) && !s.firstPass)
    requires !s.firstPass ==> Value(t, comments, p).Ok? && Value(t, comments, p).value == v
    requires var kind := if v.Double? then KInt else KindOf(v);
             CanAllocate(s) && var n := NewNode(s, kind);
             0 <= n.top < |n.nodes| && x == if v == Bool(true) then n.nodes[n.top].(boolean := true) else n.nodes[n.top]
    ensures x == Head(!s.firstPass, v, TopIndex(s.stack), StackSize(s.stack))
  {
    hide Good, StackNodes, StackSize, TopIndex, Value, NewNode, Chain;
    NewNodeOk(t, comments, s, p, if v.Double? then KInt else KindOf(v));
    NextNode(t, comments, s, p);
  }

  lemma WordedOk(t: string, comments: bool, s: State, p: nat, word: string, v: Json)
    requires Good(t, comments, s, p) && s.mode == AtValue && s.comment == NoComment
    requires v in {Null, Bool(true), Bool(false)}
    requires |word| > 0 && Value(t, comments, p) == Literal(t, p, word, v)
    requires p + |word| <= |t| && t[p..p + |word|] == word
    ensures CanAllocate(s) && Good(t, comments, Worded(s, v), p + |word|)
  {
    hide PlanAgrees, NodesAgree, PointersAgree, StackSize, TopIndex, NewNode;
    hide StackNodes, Result, Head, Document, Chain, Literal;
    hide Value, Worded, Leafed;
    assert Value(t, comments, p) == Ok(v, p + |word|) by { LiteralHere(t, p, word, v); }
    WordedIs(t, comments, s, p, v);
    var x := Head(!s.firstPass, v, TopIndex(s.stack), StackSize(s.stack));
    LeafedNodes(t, comments, s, p, KindOf(v), x, Closing(v), s.flags.(next := true), s.stringBase, s.stringLength,
                s.numDigits);
    LeafedKeeps(s, KindOf(v), x, Closing(v), s.flags.(next := true), s.stringBase, s.stringLength, s.numDigits);
  }

  /** A word makes a complete leaf. */
  lemma WordedIs(t: string, comments: bool, s: State, p: nat, v: Json)
    requires Good(t, comments, s, p) && s.mode == AtValue && s.comment == NoComment
    requires v in {Null, Bool(true), Bool(false)}
    requires Value(t, comments, p).Ok? && Value(t, comments, p).value == v
    ensures CanAllocate(s)
    ensures Worded(s, v)
         == Leafed(s, KindOf(v), Head(!s.firstPass, v, TopIndex(s.stack), StackSize(s.stack)), Closing(v),
                   s.flags.(next := true), s.stringBase, s.stringLength, s.numDigits)
  {
    hide Good, StackSize, TopIndex, NewNode, StackNodes, Head, Chain, Value;
    NewNodeOk(t, comments, s, p, KindOf(v));
    NextNode(t, comments, s, p);
    var n := NewNode(s, KindOf(v));
    PlainNode(t, comments, s, p, v, if v == Bool(true) then n.nodes[n.top].(boolean := true) else n.nodes[n.top]);
  }

  /** Allocation leaves the rest of the state alone. */
  lemma LeafedKeeps(s: State, kind: Kind, x: Node, m: Mode, flags: Flags, base: nat, length: nat, digits: nat)
    requires CanAllocate(s)
    ensures var s' := Leafed(s, kind, x, m, flags, base, length, digits);
            && s'.firstPass == s.firstPass && s'.stack == s.stack && s'.mode == m && s'.comment == s.comment
            && s'.plan == s.plan && s'.flags == flags && s'.stringBase == base && s'.stringLength == length
  {
  }

  lemma LiteralHere(t: string, p: nat, word: string, v: Json)
    requires |word| > 0 && p + |word| <= |t| && t[p..p + |word|] == word
    ensures Literal(t, p, word, v) == Ok(v, p + |word|)
  {
  }

  /** Pass 2 has skipped a number with value v. */
  function Skipped(s: State, v: Json): State
    requires CanAllocate(s)
  {
    NewNode(s, KInt).(mode := Closing(v), flags := s.flags.(next := true))
  }

  lemma SkippedOk(t: string, comments: bool, s: State, p: nat, q: nat, v: Json)
    requires Good(t, comments, s, p) && s.mode == AtValue && s.comment == NoComment && !s.firstPass
    requires Value(t, comments, p) == Ok(v, q) && (v.Int? || v.Double?)
    ensures CanAllocate(s) && Good(t, comments, Skipped(s, v), q)
  {
    hide NodesAgree, PointersAgree, StackSize, TopIndex, NewNode, StackNodes, Result, Value, Head;
    NewNodeOk(t, comments, s, p, KInt);
    NextNode(t, comments, s, p);
    var n := NewNode(s, KInt);
    var x := Head(!s.firstPass, v, TopIndex(s.stack), StackSize(s.stack));
    if v.Int? {
      PlainNode(t, comments, s, p, v, n.nodes[n.top]);
    } else {
      PlainNode(t, comments, s, p, v, n.nodes[n.top]);
    }
    assert n.nodes[n.top := x] == n.nodes;
    LeafedNodes(t, comments, s, p, KInt, x, Closing(v), s.flags.(next := true), s.stringBase, s.stringLength,
                s.numDigits);
  }

  /** Pass 1 has met the first character of a number. */
  function Numbered(s: State, neg: bool): State
    requires CanAllocate(s)
  {
    NewNode(s, KInt).(mode := InInteger(neg, 0, 0, false), numDigits := 0,
                      flags := s.flags.(negative := neg, e := false, eGotSign := false, zero := false))
  }

  lemma NumberedOk(t: string, comments: bool, s: State, p: nat, neg: bool)
    requires Good(t, comments, s, p) && s.mode == AtValue && s.comment == NoComment && s.firstPass
    requires p < |t| && if neg then t[p] == '-' else IsDigit(t[p])
    ensures CanAllocate(s) && Good(t, comments, Numbered(s, neg), if neg then p + 1 else p)
  {
    hide NodesAgree, PointersAgree, StackSize, TopIndex, NewNode, StackNodes, Result, IntegerRest;
    NewNodeOk(t, comments, s, p, KInt);
    var n := NewNode(s, KInt);
    var m := InInteger(neg, 0, 0, false);
    var x := Fresh(KInt, TopIndex(s.stack));
    assert n.nodes[n.top := x] == n.nodes by { NextNode(t, comments, s, p); }
    LeafedNodes(t, comments, s, p, KInt, x, m, s.flags.(negative := neg, e := false, eGotSign := false, zero := false),
                s.stringBase, s.stringLength, 0);
  }

  /** Nothing else may start a value. */
  lemma NoValue(t: string, comments: bool, s: State, p: nat)
    requires Good(t, comments, s, p) && s.mode == AtValue && s.comment == NoComment
    requires Value(t, comments, p).Fail?
    ensures Document(t, comments).None?
  {
    hide NodesAgree, PointersAgree, Value, FlagsAgree;
  }

  // --------------------------------------------------------- closing a container

  function FrameValue(f: Frame): Json {
    if f.FArr? then Arr(f.done) else Obj(f.names, f.done)
  }

  /** After a closing bracket. */
  function Closed(s: State): State
    requires s.stack != []
  {
    var f := s.stack[|s.stack| - 1];
    s.(mode := Closing(FrameValue(f)), stack := s.stack[..|s.stack| - 1],
       flags := s.flags.(needComma := false, seekValue := false, next := true))
  }

  /** The bracket that closes the innermost container is at p. */
  predicate AtClose(t: string, s: State, p: nat) {
    && s.comment == NoComment && s.stack != []
    && ((s.mode.Seek? && s.stack[|s.stack| - 1].FArr? && At(t, p) == ']') || (s.mode.InObject? && At(t, p) == '}'))
  }

  lemma ClosedResume(t: string, comments: bool, fill: bool, stack: seq<Frame>, m: Mode, p: nat)
    requires p <= |t| && Shape(fill, m, stack) && stack != []
    requires (m.Seek? && stack[|stack| - 1].FArr? && At(t, p) == ']') || (m.InObject? && At(t, p) == '}')
    ensures var init := stack[..|stack| - 1]; var v := FrameValue(stack[|stack| - 1]);
            && p < |t| && AllWaiting(init)
            && Resume(t, comments, fill, stack, m, p) == Result(t, comments, init, Ok(v, p + 1))
            && Resume(t, comments, fill, init, Closing(v), p + 1) == Result(t, comments, init, Ok(v, p + 1))
  {
    hide Result, Value;
  }

  /** A container whose buffers are full has the node of its value. */
  lemma FullFrame(fill: bool, f: Frame, parent: int, base: nat, plan: seq<Node>)
    requires f.FObj? ==> f.partial == ""
    requires fill ==> base < |plan| && plan[base] == Head(false, FrameValue(f), parent, base)
    ensures FrameNode(fill, f, parent, base, plan) == Head(fill, FrameValue(f), parent, base)
  {
    hide NameMemory, NameSpans, Offsets;
    assert NameMemory([]) + "" == NameMemory([]) && (f.FObj? ==> NameMemory(f.names) + "" == NameMemory(f.names));
    FrameNoNames();
  }

  lemma FrameNoNames()
    ensures NameMemory([]) == "" && NameSpans([]) == [] && NameBytes([]) == 0
  {
  }

  lemma ClosedNodes(fill: bool, init: seq<Frame>, f: Frame, plan: seq<Node>)
    requires f.FObj? ==> f.partial == ""
    requires fill ==>
               && StackSize(init) < |plan|
               && plan[StackSize(init)] == Head(false, FrameValue(f), TopIndex(init), StackSize(init))
    ensures StackNodes(fill, init + [f], plan)
         == StackNodes(fill, init, plan) + Emit(fill, FrameValue(f), TopIndex(init), StackSize(init))
    ensures StackSize(init + [f]) == StackSize(init) + Size(FrameValue(f))
    ensures TopIndex(init + [f]) == StackSize(init)
  {
    hide FrameNode, Head, Emit, EmitAll, Size, SizeAll, StackNodes, StackSize, TopIndex;
    FullFrame(fill, f, TopIndex(init), StackSize(init), plan);
    TopNodes(fill, init, f, plan);
    EmitContainer(fill, FrameValue(f), TopIndex(init), StackSize(init));
  }

  /** The closed container's nodes are as before, now those of a complete value. */
  lemma ClosedAgrees(s: State)
    requires s.stack != [] && !HasLeaf(s.mode) && !s.mode.Finished? && NodesAgree(s)
    requires PointersAgree(s, Used(s.mode, s.stack))
    requires var f := s.stack[|s.stack| - 1]; f.FObj? ==> f.partial == ""
    requires var init := s.stack[..|s.stack| - 1]; var base := StackSize(init);
             !s.firstPass ==>
               && base < |s.plan|
               && s.plan[base] == Head(false, FrameValue(s.stack[|s.stack| - 1]), TopIndex(init), base)
    ensures var s' := Closed(s); NodesAgree(s') && PointersAgree(s', Used(s'.mode, s'.stack))
  {
    hide StackSize, TopIndex, StackNodes, Emit, Head, Size, Chain;
    var init := s.stack[..|s.stack| - 1];
    var f := s.stack[|s.stack| - 1];
    assert s.stack == init + [f];
    ClosedNodes(!s.firstPass, init, f, s.plan);
  }

  lemma EmitContainer(fill: bool, v: Json, parent: int, base: nat)
    requires IsContainer(v)
    ensures Emit(fill, v, parent, base) == [Head(fill, v, parent, base)] + EmitAll(fill, v.items, base, base + 1)
    ensures Size(v) == 1 + SizeAll(v.items)
  {
  }

  /** What pass 2 knows of the container it closes. */
  lemma ClosedPlan(t: string, comments: bool, s: State, p: nat)
    requires Good(t, comments, s, p) && AtClose(t, s, p) && !s.firstPass
    ensures var init := s.stack[..|s.stack| - 1]; var base := StackSize(init);
            base < |s.plan| && s.plan[base] == Head(false, FrameValue(s.stack[|s.stack| - 1]), TopIndex(init), base)
  {
    hide NodesAgree, PointersAgree, Used, FlagsAgree, Resume, Result, Head, StackSize, TopIndex, Emit, Array, Object;
    var init := s.stack[..|s.stack| - 1];
    var v := FrameValue(s.stack[|s.stack| - 1]);
    ClosedResume(t, comments, true, s.stack, s.mode, p);
    LocateHead(t, comments, init, Ok(v, p + 1), Document(t, comments).value);
  }

  lemma ClosedOk(t: string, comments: bool, s: State, p: nat)
    requires Good(t, comments, s, p) && AtClose(t, s, p)
    ensures Good(t, comments, Closed(s), p + 1)
  {
    hide NodesAgree, PointersAgree, Used, Resume, Result, Head, StackSize, TopIndex, Emit, Array, Object;
    ClosedResume(t, comments, !s.firstPass, s.stack, s.mode, p);
    if !s.firstPass {
      ClosedPlan(t, comments, s, p);
    }
    ClosedAgrees(s);
  }

  // ------------------------------------------ handing a value to its container

  function Grown(f: Frame, v: Json): Frame {
    f.(done := f.done + [v])
  }

  /** The node of a container that has got one more value, at node `child`. */
  function GrownNode(fill: bool, n: Node, child: int): Node {
    if fill then n.(length := n.length + 1, values := n.values + [child]) else n.(length := n.length + 1)
  }

  /** After a value has been handed to its container, or has turned out the root. */
  function Handed(s: State): State
    requires s.mode.Closing?
  {
    if s.stack == [] then
      s.(mode := Finished(s.mode.v), flags := s.flags.(next := false, needComma := true, done := true))
    else
      var f := s.stack[|s.stack| - 1];
      var k := TopIndex(s.stack);
      s.(mode := if f.FArr? then Seek(true, false) else InObject(true),
         stack := s.stack[..|s.stack| - 1] + [Grown(f, s.mode.v)],
         nodes := if 0 <= k < |s.nodes| then s.nodes[k := GrownNode(!s.firstPass, s.nodes[k], s.top)] else s.nodes,
         top := k,
         flags := s.flags.(next := false, needComma := true, seekValue := f.FArr?))
  }

  lemma HandedResume(t: string, comments: bool, fill: bool, stack: seq<Frame>, v: Json, p: nat)
    requires p <= |t| && AllWaiting(stack) && stack != []
    ensures var f := stack[|stack| - 1]; var stack' := stack[..|stack| - 1] + [Grown(f, v)];
            var m := if f.FArr? then Seek(true, false) else InObject(true);
            && Shape(fill, m, stack')
            && Resume(t, comments, fill, stack, Closing(v), p)
               == if |f.done| >= LENGTH_MAX then None else Resume(t, comments, fill, stack', m, p)
  {
    var f := stack[|stack| - 1];
    var init := stack[..|stack| - 1];
    var stack' := init + [Grown(f, v)];
    assert stack'[..|stack'| - 1] == init;
    hide Array, Object, Waiting;
    assert Waiting(f);
    hide AllWaiting;
    FrameShape(fill, init, f, v);
  }

  lemma FrameShape(fill: bool, init: seq<Frame>, f: Frame, v: Json)
    requires Waiting(f)
    ensures AllWaiting(init + [f]) ==>
              Shape(fill, if f.FArr? then Seek(true, false) else InObject(true), init + [Grown(f, v)])
  {
    var stack := init + [Grown(f, v)];
    assert stack[..|stack| - 1] == init;
    assert AllWaiting(init + [f]) ==> AllWaiting(init) by {
      if AllWaiting(init + [f]) {
        forall k | 0 <= k < |init| ensures Waiting(init[k]) { assert (init + [f])[k] == init[k]; }
      }
    }
  }

  lemma GrownFrame(fill: bool, f: Frame, v: Json, parent: int, base: nat, plan: seq<Node>)
    requires Waiting(f)
    ensures FrameNode(fill, Grown(f, v), parent, base, plan)
         == GrownNode(fill, FrameNode(fill, f, parent, base, plan), base + 1 + SizeAll(f.done))
  {
    hide NameMemory, NameSpans, NameBytes, SizeAll, EmitAll, Emit;
    EmitAllSnoc(fill, f.done, v, base, base + 1);
  }

  /** Handing a value to its container only changes the container's own node. */
  lemma HandedNodes(fill: bool, init: seq<Frame>, f: Frame, v: Json, plan: seq<Node>, rest: seq<Node>)
    requires Waiting(f)
    ensures var base := StackSize(init); var child := StackSize(init + [f]);
            && base < |StackNodes(fill, init + [f], plan)|
            && (StackNodes(fill, init + [f], plan) + Emit(fill, v, base, child) + rest)
                 [base := GrownNode(fill, FrameNode(fill, f, TopIndex(init), base, plan), child)]
               == StackNodes(fill, init + [Grown(f, v)], plan) + rest
            && (StackNodes(fill, init + [f], plan) + Emit(fill, v, base, child) + rest)[base]
               == FrameNode(fill, f, TopIndex(init), base, plan)
            && StackSize(init + [Grown(f, v)]) == child + Size(v)
            && child == base + 1 + SizeAll(f.done)
            && TopIndex(init + [Grown(f, v)]) == TopIndex(init + [f]) == base
  {
    hide StackNodes, Emit, EmitAll, FrameNode, GrownNode, Offsets, StackSize, SizeAll, Size, TopIndex, Waiting;
    TopNodes(fill, init, f, plan);
    TopNodes(fill, init, Grown(f, v), plan);
    EmitAllSnoc(fill, f.done, v, StackSize(init), StackSize(init) + 1);
    GrownFrame(fill, f, v, TopIndex(init), StackSize(init), plan);
  }

  /** The head of a value's nodes names its container. */
  lemma HeadParent(fill: bool, v: Json, parent: int, base: nat)
    ensures Emit(fill, v, parent, base)[0].parent == parent
  {
  }

  /** What the code reads of the nodes when a value is complete. */
  lemma HandedReads(t: string, comments: bool, s: State, p: nat)
    requires Good(t, comments, s, p) && s.mode.Closing? && s.comment == NoComment
    ensures 0 <= s.top < |s.nodes| && s.nodes[s.top].parent == TopIndex(s.stack)
    ensures s.stack != [] ==>
              && 0 <= TopIndex(s.stack) < |s.nodes|
              && var f := s.stack[|s.stack| - 1]; var n := s.nodes[TopIndex(s.stack)];
              && n == FrameNode(!s.firstPass, f, TopIndex(s.stack[..|s.stack| - 1]), TopIndex(s.stack), s.plan)
              && n.kind == (if f.FArr? then KArr else KObj) && n.length == |f.done|
  {
    hide StackSize, TopIndex, StackNodes, Emit, Size, Chain, FlagsAgree, Document, Resume, Result;
    hide Offsets, NameMemory, NameSpans, NameBytes;
    HeadParent(!s.firstPass, s.mode.v, TopIndex(s.stack), StackSize(s.stack));
    var e := Emit(!s.firstPass, s.mode.v, TopIndex(s.stack), StackSize(s.stack));
    assert s.nodes[s.top] == e[0];
    if s.stack != [] {
      var init := s.stack[..|s.stack| - 1];
      var f := s.stack[|s.stack| - 1];
      assert s.stack == init + [f];
      HandedNodes(!s.firstPass, init, f, s.mode.v, s.plan,
                  if s.firstPass then [] else s.plan[|Written(true, s.mode, s.stack, s.plan)|..]);
    }
  }

  lemma HandedAgrees(s: State)
    requires s.mode.Closing? && s.stack != [] && NodesAgree(s) && PointersAgree(s, Used(s.mode, s.stack))
    requires AllWaiting(s.stack)
    ensures var s' := Handed(s); NodesAgree(s') && PointersAgree(s', Used(s'.mode, s'.stack))
  {
    hide StackSize, TopIndex, StackNodes, Emit, Size, SizeAll;
    hide Chain, FrameNode, GrownNode, Waiting, Handed, PointersAgree;
    var init := s.stack[..|s.stack| - 1];
    var f := s.stack[|s.stack| - 1];
    assert s.stack == init + [f] && Waiting(f);
    var w := Written(!s.firstPass, s.mode, s.stack, s.plan);
    var rest := if s.firstPass then [] else s.plan[|w|..];
    assert s.nodes == w + rest;
    HandedTop(s);
    hide AllWaiting;
    HandedNodes(!s.firstPass, init, f, s.mode.v, s.plan, rest);
    hide Used;
    HandedPointers(s);
  }

  /** What changes in the state, the node of the innermost container being at `top` of it. */
  lemma HandedTop(s: State)
    requires s.mode.Closing? && s.stack != [] && PointersAgree(s, Used(s.mode, s.stack))
    ensures var f, s' := s.stack[|s.stack| - 1], Handed(s); var k := TopIndex(s.stack);
            && s'.mode == (if f.FArr? then Seek(true, false) else InObject(true))
            && s'.stack == s.stack[..|s.stack| - 1] + [Grown(f, s.mode.v)]
            && s'.nodes == (if 0 <= k < |s.nodes|
                            then s.nodes[k := GrownNode(!s.firstPass, s.nodes[k], StackSize(s.stack))] else s.nodes)
            && s'.firstPass == s.firstPass && s'.plan == s.plan
  {
    hide StackSize, TopIndex, GrownNode, Chain, Size;
  }

  lemma HandedPointers(s: State)
    requires s.mode.Closing? && s.stack != [] && PointersAgree(s, Used(s.mode, s.stack))
    requires var s' := Handed(s);
             Used(s'.mode, s'.stack) == Used(s.mode, s.stack) && TopIndex(s'.stack) == TopIndex(s.stack)
    ensures var s' := Handed(s); PointersAgree(s', Used(s'.mode, s'.stack))
  {
    hide StackSize, TopIndex, GrownNode, Chain, Used;
  }

  lemma HandedRoot(s: State)
    requires s.mode.Closing? && s.stack == [] && NodesAgree(s) && PointersAgree(s, Used(s.mode, s.stack))
    ensures var s' := Handed(s); NodesAgree(s') && PointersAgree(s', Used(s'.mode, s'.stack))
  {
    hide Emit, Size, Chain;
    NoFrames(!s.firstPass, s.plan);
  }

  lemma NoFrames(fill: bool, plan: seq<Node>)
    ensures StackSize([]) == 0 && TopIndex([]) == -1 && StackNodes(fill, [], plan) == []
  {
  }

  lemma HandedOk(t: string, comments: bool, s: State, p: nat)
    requires Good(t, comments, s, p) && s.mode.Closing? && s.comment == NoComment
    requires s.stack != [] ==> |s.stack[|s.stack| - 1].done| < LENGTH_MAX
    ensures Good(t, comments, Handed(s), p)
  {
    hide NodesAgree, PointersAgree, Used, TopIndex, Document, Resume, FlagsAgree, Handed, Shape, AllWaiting, Emit;
    if s.stack == [] {
      HandedRoot(s);
      HandedEnds(t, comments, s, p);
    } else {
      AllWait(s);
      HandedAgrees(s);
      HandedResume(t, comments, !s.firstPass, s.stack, s.mode.v, p);
      HandedParts(s);
    }
  }

  lemma AllWait(s: State)
    requires s.mode.Closing? && Shape(!s.firstPass, s.mode, s.stack)
    ensures AllWaiting(s.stack)
  {
  }

  lemma HandedParts(s: State)
    requires s.mode.Closing? && s.stack != [] && Shape(!s.firstPass, s.mode, s.stack) && FlagsAgree(s)
    requires var f := s.stack[|s.stack| - 1];
             Shape(!s.firstPass, if f.FArr? then Seek(true, false) else InObject(true),
                   s.stack[..|s.stack| - 1] + [Grown(f, s.mode.v)])
    ensures var f, s' := s.stack[|s.stack| - 1], Handed(s);
            && s'.mode == (if f.FArr? then Seek(true, false) else InObject(true))
            && s'.stack == s.stack[..|s.stack| - 1] + [Grown(f, s.mode.v)]
            && s' == s.(mode := s'.mode, stack := s'.stack, nodes := s'.nodes, top := s'.top, flags := s'.flags)
            && FlagsAgree(s')
  {
    hide Shape, GrownNode;
  }

  /** The root is complete. */
  lemma HandedEnds(t: string, comments: bool, s: State, p: nat)
    requires s.mode.Closing? && s.stack == [] && Shape(!s.firstPass, s.mode, s.stack) && FlagsAgree(s) && p <= |t|
    ensures var s' := Handed(s);
            && Shape(!s.firstPass, s'.mode, s'.stack)
            && Resume(t, comments, !s.firstPass, s'.stack, s'.mode, p)
               == Resume(t, comments, !s.firstPass, s.stack, s.mode, p)
            && FlagsAgree(s')
            && s' == s.(mode := s'.mode, flags := s'.flags)
  {
    hide Ends;
  }

  /** A container that is already as long as a length can be fails. */
  lemma TooLong(t: string, comments: bool, s: State, p: nat)
    requires Good(t, comments, s, p) && s.mode.Closing? && s.comment == NoComment
    requires s.stack != [] && |s.stack[|s.stack| - 1].done| >= LENGTH_MAX
    ensures Document(t, comments).None?
  {
    hide NodesAgree, PointersAgree, Used, Array, Object, FlagsAgree;
  }

  /** Pass 1 counted at least one value more than the container has so far. */
  lemma RoomInPlan(t: string, comments: bool, stack: seq<Frame>, v: Json, p: nat, tree: Json)
    requires p <= |t| && stack != [] && Result(t, comments, stack, Ok(v, p)) == Some(tree)
    ensures var plan := Emit(false, tree, -1, 0);
            0 <= TopIndex(stack) < |plan| && |stack[|stack| - 1].done| < plan[TopIndex(stack)].length
  {
    hide Array, Object, TopIndex, StackSize, Emit, Size;
    var f := stack[|stack| - 1];
    var init := stack[..|stack| - 1];
    var w := if f.FArr? then Array(t, comments, p, f.done + [v], true)
             else Object(t, comments, p, f.names, f.done + [v], true);
    LocateHead(t, comments, init, w, tree);
    assert f.done + [v] <= w.value.items;
    TopIsBase(stack);
  }

  /** In pass 2 the container has a free slot for its next value. */
  lemma RoomForValue(t: string, comments: bool, s: State, p: nat)
    requires Good(t, comments, s, p) && s.mode.Closing? && s.comment == NoComment && !s.firstPass
    requires s.stack != []
    ensures 0 <= TopIndex(s.stack) < |s.nodes|
    ensures var n := s.nodes[TopIndex(s.stack)];
            |n.values| == n.length < n.capacity && n.names == NameSpans(FrameNames(s.stack[|s.stack| - 1]))
  {
    HandedReads(t, comments, s, p);
    hide NodesAgree, PointersAgree, Used, Result, FlagsAgree, TopIndex;
    hide Emit, NameMemory, NameSpans, StackSize, Offsets, NameBytes, Shape;
    RoomInPlan(t, comments, s.stack, s.mode.v, p, Document(t, comments).value);
  }

  lemma TopIsBase(stack: seq<Frame>)
    requires stack != []
    ensures TopIndex(stack) == StackSize(stack[..|stack| - 1])
  {
  }

  // -------------------------------------------------------------------- strings

  /** A string, or a name, begins: names are stored in the open object's own buffer. */
  function NameOpened(s: State): State
    requires s.stack != []
  {
    s.(mode := InString(true, false, ""), flags := s.flags.(inString := true),
       stringBase := if s.firstPass then 0 else NameBytes(FrameNames(s.stack[|s.stack| - 1])), stringLength := 0)
  }

  lemma NameOpenedResume(t: string, comments: bool, fill: bool, stack: seq<Frame>, p: nat)
    requires p < |t| && Shape(fill, InObject(false), stack) && t[p] == '"'
    ensures Shape(fill, InString(true, false, ""), stack)
    ensures Resume(t, comments, fill, stack, InString(true, false, ""), p + 1)
            == Resume(t, comments, fill, stack, InObject(false), p)
  {
    hide StringRest, Colon, Array, Ends;
    var r := StringRest(t, p + 1, 0);
    assert r.Ok? ==> "" + r.value == r.value;
  }

  lemma NameOpenedOk(t: string, comments: bool, s: State, p: nat)
    requires Good(t, comments, s, p) && s.mode == InObject(false) && s.comment == NoComment && At(t, p) == '"'
    ensures s.stack != [] && Good(t, comments, NameOpened(s), p + 1)
  {
    hide NodesAgree, PointersAgree, Used, Resume;
    NameOpenedResume(t, comments, !s.firstPass, s.stack, p);
    SameNodesOk(t, comments, s, NameOpened(s), p);
  }

  function Backslashed(s: State): State
    requires s.mode.InString?
  {
    s.(mode := s.mode.(escaped := true), flags := s.flags.(escaped := true))
  }

  lemma BackslashedResume(t: string, comments: bool, fill: bool, stack: seq<Frame>, m: Mode, p: nat)
    requires p < |t| && m.InString? && !m.escaped && t[p] == '\\' && |m.sofar| <= LENGTH_MAX && Shape(fill, m, stack)
    ensures Resume(t, comments, fill, stack, m.(escaped := true), p + 1) == Resume(t, comments, fill, stack, m, p)
  {
    hide Result, Escape, Colon;
    var e := Escape(t, p + 1);
    if e.Ok? {
      var rest := StringRest(t, e.pos, |m.sofar| + |e.value|);
      assert rest.Ok? ==> m.sofar + (e.value + rest.value) == m.sofar + e.value + rest.value;
    }
  }

  lemma BackslashedAgrees(s: State)
    requires s.mode.InString? && !s.mode.escaped && Shape(!s.firstPass, s.mode, s.stack) && FlagsAgree(s)
    requires NodesAgree(s) && PointersAgree(s, Used(s.mode, s.stack))
    ensures s.stringLength == |s.mode.sofar|
    ensures var s' := Backslashed(s);
            && Shape(!s.firstPass, s'.mode, s'.stack) && FlagsAgree(s')
            && NodesAgree(s') && PointersAgree(s', Used(s'.mode, s'.stack))
  {
    hide TopIndex, StackSize, StackNodes, Chain, StringNode, NameBytes, AllWaiting;
  }

  lemma BackslashedOk(t: string, comments: bool, s: State, p: nat)
    requires Good(t, comments, s, p) && s.mode.InString? && !s.mode.escaped && s.comment == NoComment
    requires At(t, p) == '\\' && s.stringLength <= LENGTH_MAX
    ensures Good(t, comments, Backslashed(s), p + 1)
  {
    hide Resume, FlagsAgree, NodesAgree, PointersAgree, Used, Document, Shape;
    BackslashedAgrees(s);
    BackslashedResume(t, comments, !s.firstPass, s.stack, s.mode, p);
  }

  /** A string fails at the end of the text and when it is too long. */
  lemma StringFails(t: string, comments: bool, s: State, p: nat)
    requires Good(t, comments, s, p) && s.mode.InString? && s.comment == NoComment
    requires At(t, p) == NUL || s.stringLength > LENGTH_MAX || (s.mode.escaped && Escape(t, p).Fail?)
    ensures Document(t, comments).None?
  {
    hide NodesAgree, PointersAgree, Used, Colon;
  }

  function PartialOf(f: Frame, partial: string): Frame {
    if f.FObj? then f.(partial := partial) else f
  }

  /** After the characters x of a string have been added. */
  function Added(s: State, x: string): State
    requires s.mode.InString? && (s.mode.isName ==> s.stack != [])
  {
    s.(mode := s.mode.(escaped := false, sofar := s.mode.sofar + x),
       flags := s.flags.(escaped := false),
       stringLength := s.stringLength + |x|,
       nodes := if s.firstPass || !(0 <= s.top < |s.nodes|) then s.nodes
                else s.nodes[s.top := s.nodes[s.top].(memory := s.nodes[s.top].memory + x)],
       stack := if s.firstPass || !s.mode.isName then s.stack
                else s.stack[..|s.stack| - 1] + [PartialOf(s.stack[|s.stack| - 1], s.mode.sofar + x)])
  }

  /** The characters that stand at p in a string: one character, or an escape. */
  function NextChars(t: string, escaped: bool, p: nat): (r: Parsed<string>)
    requires p < |t|
    ensures r.Ok? ==> p < r.pos <= |t|
  {
    if escaped then Escape(t, p)
    else if t[p] == NUL || t[p] == '\\' || t[p] == '"' then Fail
    else Ok([t[p]], p + 1)
  }

  lemma NextEscaped(t: string, p: nat)
    requires p < |t|
    ensures NextChars(t, true, p) == Escape(t, p)
  {
  }

  lemma FullStringStep(t: string, escaped: bool, sofar: string, p: nat)
    requires p < |t| && |sofar| <= LENGTH_MAX && NextChars(t, escaped, p).Ok?
    ensures var x := NextChars(t, escaped, p);
            var r := FullString(t, escaped, sofar, p);
            && r == FullString(t, false, sofar + x.value, x.pos)
            && (r.Ok? ==> sofar + x.value <= r.value)
  {
    hide Escape;
    var x := NextChars(t, escaped, p);
    var rest := StringRest(t, x.pos, |sofar| + |x.value|);
    assert |sofar + x.value| == |sofar| + |x.value|;
    if rest.Ok? {
      assert sofar + (x.value + rest.value) == sofar + x.value + rest.value;
    }
  }

  lemma FullLonger(t: string, escaped: bool, sofar: string, p: nat)
    requires p <= |t|
    ensures var r := FullString(t, escaped, sofar, p); r.Ok? ==> sofar <= r.value
  {
    hide Escape, StringRest;
  }

  lemma AddedResume(t: string, comments: bool, s: State, p: nat)
    requires p < |t| && s.mode.InString? && Shape(!s.firstPass, s.mode, s.stack) && |s.mode.sofar| <= LENGTH_MAX
    requires NextChars(t, s.mode.escaped, p).Ok?
    ensures var x := NextChars(t, s.mode.escaped, p); var s' := Added(s, x.value);
            && Shape(!s.firstPass, s'.mode, s'.stack)
            && Resume(t, comments, !s.firstPass, s'.stack, s'.mode, x.pos)
                == Resume(t, comments, !s.firstPass, s.stack, s.mode, p)
  {
    hide Result, FullString, Colon, NextChars, Waiting;
    FullStringStep(t, s.mode.escaped, s.mode.sofar, p);
    var s' := Added(s, NextChars(t, s.mode.escaped, p).value);
    assert |s'.stack| == |s.stack|
           && (s.stack != [] && s.mode.isName ==> s'.stack[..|s.stack| - 1] == s.stack[..|s.stack| - 1]);
  }

  /** Changing only the stored part of a name changes only the object's node. */
  lemma PartialNodes(fill: bool, init: seq<Frame>, f: Frame, f': Frame, plan: seq<Node>, rest: seq<Node>)
    requires f.done == f'.done
    ensures var base := StackSize(init); var node' := FrameNode(fill, f', TopIndex(init), base, plan);
            && base < |StackNodes(fill, init + [f], plan)|
            && (StackNodes(fill, init + [f], plan) + rest)[base := node'] == StackNodes(fill, init + [f'], plan) + rest
            && (StackNodes(fill, init + [f], plan) + rest)[base] == FrameNode(fill, f, TopIndex(init), base, plan)
            && StackSize(init + [f]) == StackSize(init + [f'])
            && TopIndex(init + [f]) == TopIndex(init + [f']) == base
  {
    hide StackNodes, EmitAll, FrameNode, StackSize, SizeAll, TopIndex;
    TopNodes(fill, init, f, plan);
    TopNodes(fill, init, f', plan);
  }

  /** The node into which the characters of a string go. */
  lemma StringTop(s: State)
    requires s.mode.InString? && Shape(!s.firstPass, s.mode, s.stack) && NodesAgree(s)
    requires PointersAgree(s, Used(s.mode, s.stack))
    ensures 0 <= s.top < |s.nodes|
    ensures s.mode.isName ==>
              && s.top == TopIndex(s.stack) == StackSize(s.stack[..|s.stack| - 1])
              && s.nodes[s.top] == FrameNode(!s.firstPass, s.stack[|s.stack| - 1], TopIndex(s.stack[..|s.stack| - 1]),
                                             s.top, s.plan)
    ensures !s.mode.isName ==>
              && s.top == StackSize(s.stack)
              && s.nodes[s.top] == StringNode(!s.firstPass, TopIndex(s.stack), s.top, s.plan, s.mode.sofar)
  {
    hide StackNodes, FrameNode, StackSize, TopIndex, Waiting, Chain, StringNode;
    if s.mode.isName {
      var init := s.stack[..|s.stack| - 1];
      var f := s.stack[|s.stack| - 1];
      assert s.stack == init + [f];
      PartialNodes(!s.firstPass, init, f, f, s.plan,
                   if s.firstPass then [] else s.plan[|Written(true, s.mode, s.stack, s.plan)|..]);
    }
  }

  /** Replacing the node of the object that a name goes into. */
  lemma NameTopReplaced(s: State, s': State, x: Node)
    requires s.mode.InString? && s.mode.isName && Shape(!s.firstPass, s.mode, s.stack)
    requires NodesAgree(s) && PointersAgree(s, Used(s.mode, s.stack))
    requires 0 <= s.top < |s.nodes| && s'.nodes == s.nodes[s.top := x]
    requires s' == s.(nodes := s'.nodes, mode := s'.mode, stack := s'.stack, flags := s'.flags,
                      stringLength := s'.stringLength)
    requires !HasLeaf(s'.mode) && !s'.mode.Finished? && |s'.stack| == |s.stack|
    requires s'.stack[..|s.stack| - 1] == s.stack[..|s.stack| - 1]
    requires s'.stack[|s.stack| - 1].done == s.stack[|s.stack| - 1].done
    requires x == FrameNode(!s.firstPass, s'.stack[|s.stack| - 1], TopIndex(s.stack[..|s.stack| - 1]), s.top, s.plan)
    ensures NodesAgree(s') && PointersAgree(s', Used(s'.mode, s'.stack))
  {
    hide StackNodes, FrameNode, StackSize, TopIndex, Waiting, Chain, StringNode;
    var init := s.stack[..|s.stack| - 1];
    var f := s.stack[|s.stack| - 1];
    var f' := s'.stack[|s.stack| - 1];
    assert s.stack == init + [f] && s'.stack == init + [f'];
    var w := Written(!s.firstPass, s.mode, s.stack, s.plan);
    var w' := Written(!s.firstPass, s'.mode, s'.stack, s.plan);
    assert w == StackNodes(!s.firstPass, s.stack, s.plan) && w' == StackNodes(!s.firstPass, s'.stack, s.plan);
    var rest := if s.firstPass then [] else s.plan[|w|..];
    assert s.nodes == w + rest;
    PartialNodes(!s.firstPass, init, f, f', s.plan, rest);
    assert s'.nodes == w' + rest;
  }

  /** Replacing the node of a string value. */
  lemma LeafReplaced(s: State, s': State, x: Node)
    requires HasLeaf(s.mode) && !s.mode.Closing? && Shape(!s.firstPass, s.mode, s.stack)
    requires NodesAgree(s) && PointersAgree(s, Used(s.mode, s.stack))
    requires 0 <= s.top < |s.nodes| && s'.nodes == s.nodes[s.top := x]
    requires s' == s.(nodes := s'.nodes, mode := s'.mode, flags := s'.flags, stringLength := s'.stringLength,
                      numDigits := s'.numDigits)
    requires HasLeaf(s'.mode) && Used(s'.mode, s.stack) == StackSize(s.stack) + 1
    requires LeafNodes(!s.firstPass, s'.mode, s.stack, s.plan) == [x]
    ensures NodesAgree(s') && PointersAgree(s', Used(s'.mode, s'.stack))
  {
    hide StackNodes, FrameNode, StackSize, TopIndex, Waiting, Chain, StringNode;
    var old1 := LeafNodes(!s.firstPass, s.mode, s.stack, s.plan);
    assert |old1| == 1;
    hide LeafNodes;
    var pre := StackNodes(!s.firstPass, s.stack, s.plan);
    var rest := if s.firstPass then [] else s.plan[|pre + old1|..];
    assert s.nodes == pre + old1 + rest;
    assert s'.nodes == pre + [x] + rest;
  }

  lemma AddedFrame(f: Frame, sofar: string, x: string, parent: int, base: nat, plan: seq<Node>)
    requires f.FObj? && f.partial == sofar
    ensures var n := FrameNode(true, f, parent, base, plan);
            FrameNode(true, PartialOf(f, sofar + x), parent, base, plan) == n.(memory := n.memory + x)
  {
    hide NameMemory, NameSpans, Offsets;
    assert NameMemory(f.names) + (sofar + x) == NameMemory(f.names) + sofar + x;
  }

  lemma AddedAgrees(s: State, x: string)
    requires s.mode.InString? && Shape(!s.firstPass, s.mode, s.stack) && NodesAgree(s)
    requires PointersAgree(s, Used(s.mode, s.stack))
    ensures var s' := Added(s, x); NodesAgree(s') && PointersAgree(s', Used(s'.mode, s'.stack))
  {
    hide NodesAgree, PointersAgree, Added, Shape, Used;
    if s.firstPass {
      AddedCount(s, x);
    } else if s.mode.isName {
      AddedToName(s, x);
    } else {
      AddedToString(s, x);
    }
  }

  /** In pass 1 only the length changes. */
  lemma AddedCount(s: State, x: string)
    requires s.firstPass && s.mode.InString? && Shape(false, s.mode, s.stack) && NodesAgree(s)
    requires PointersAgree(s, Used(s.mode, s.stack))
    ensures s.mode.isName ==> s.stack != []
    ensures var s' := Added(s, x); NodesAgree(s') && PointersAgree(s', Used(s'.mode, s'.stack))
  {
    hide StackNodes, FrameNode, StackSize, TopIndex, Waiting, Chain;
  }

  lemma AddedToName(s: State, x: string)
    requires !s.firstPass && s.mode.InString? && s.mode.isName && Shape(true, s.mode, s.stack) && NodesAgree(s)
    requires PointersAgree(s, Used(s.mode, s.stack))
    ensures s.stack != []
    ensures var s' := Added(s, x); NodesAgree(s') && PointersAgree(s', Used(s'.mode, s'.stack))
  {
    hide StackNodes, FrameNode, StackSize, TopIndex, Waiting, Chain, NodesAgree, PointersAgree;
    StringTop(s);
    AddedFrame(s.stack[|s.stack| - 1], s.mode.sofar, x, TopIndex(s.stack[..|s.stack| - 1]), s.top, s.plan);
    NameTopReplaced(s, Added(s, x), s.nodes[s.top].(memory := s.nodes[s.top].memory + x));
  }

  lemma AddedToString(s: State, x: string)
    requires !s.firstPass && s.mode.InString? && !s.mode.isName && Shape(true, s.mode, s.stack) && NodesAgree(s)
    requires PointersAgree(s, Used(s.mode, s.stack))
    ensures var s' := Added(s, x); NodesAgree(s') && PointersAgree(s', Used(s'.mode, s'.stack))
  {
    hide StackNodes, FrameNode, StackSize, TopIndex, Waiting, Chain, NodesAgree, PointersAgree;
    StringTop(s);
    LeafReplaced(s, Added(s, x), s.nodes[s.top].(memory := s.nodes[s.top].memory + x));
  }

  lemma AddedOk(t: string, comments: bool, s: State, p: nat)
    requires Good(t, comments, s, p) && s.mode.InString? && s.comment == NoComment && p < |t|
    requires s.stringLength <= LENGTH_MAX && NextChars(t, s.mode.escaped, p).Ok?
    ensures s.mode.isName ==> s.stack != []
    ensures var x := NextChars(t, s.mode.escaped, p); Good(t, comments, Added(s, x.value), x.pos)
  {
    hide NodesAgree, PointersAgree, Used, Resume, NextChars, Waiting, Document;
    AddedResume(t, comments, s, p);
    AddedAgrees(s, NextChars(t, s.mode.escaped, p).value);
  }

  /** In pass 2 a string never outgrows the buffer that pass 1 measured. */
  lemma RoomForString(t: string, comments: bool, s: State, p: nat)
    requires Good(t, comments, s, p) && s.mode.InString? && s.comment == NoComment && !s.firstPass
    ensures 0 <= s.top < |s.nodes|
    ensures var r := FullString(t, s.mode.escaped, s.mode.sofar, p); var n := s.nodes[s.top];
            && r.Ok?
            && |n.memory| == s.stringBase + s.stringLength
            && |n.memory| - s.stringLength + |r.value| < (if s.mode.isName then n.nameBytes else n.capacity)
            && (s.mode.isName ==> |n.names| == n.length < n.capacity && n.objectMem == s.stringBase)
            && (!s.mode.isName ==> n.capacity == |r.value| + 1)
  {
    hide TopIndex, StackSize, Emit, Size, Array, Object, Colon, FullString;
    hide NameMemory, NameSpans, NameBytes, Offsets, StackNodes, Used, Chain;
    StringTop(s);
    hide NodesAgree, PointersAgree;
    var r := FullString(t, s.mode.escaped, s.mode.sofar, p);
    var tree := Document(t, comments).value;
    if s.mode.isName {
      NameRoomInPlan(t, comments, s.stack, r, tree);
    } else {
      LocateHead(t, comments, s.stack, Ok(Str(r.value), r.pos), tree);
    }
  }

  lemma NameRoomInPlan(t: string, comments: bool, stack: seq<Frame>, r: Parsed<string>, tree: Json)
    requires r.Ok? && r.pos <= |t| && stack != []
    requires var f := stack[|stack| - 1]; f.FObj? && |f.names| == |f.done|
    requires var f := stack[|stack| - 1];
             Result(t, comments, stack[..|stack| - 1], Colon(t, comments, r.pos, f.names + [r.value], f.done))
                 == Some(tree)
    ensures var plan := Emit(false, tree, -1, 0); var f := stack[|stack| - 1];
            var base := StackSize(stack[..|stack| - 1]);
            base < |plan| && NameBytes(f.names) + |r.value| + 1 <= plan[base].nameBytes && |f.done| < plan[base].length
  {
    hide TopIndex, StackSize, Emit, Size, Colon, NameBytes, NameMemory, NameSpans, Result;
    var f := stack[|stack| - 1];
    var names := f.names + [r.value];
    var w := Colon(t, comments, r.pos, names, f.done);
    assert w.Ok? by { ResultFails(t, comments, stack[..|stack| - 1]); }
    LocateHead(t, comments, stack[..|stack| - 1], w, tree);
    NamesSnoc(f.names, r.value);
    NameBytesPrefix(names, w.value.names);
  }

  lemma ResultFails(t: string, comments: bool, stack: seq<Frame>)
    ensures Result(t, comments, stack, Fail).None?
  {
  }

  /** After the closing quote of a string value. */
  function StringClosed(s: State): State
    requires s.mode.InString? && 0 <= s.top < |s.nodes|
  {
    var n := s.nodes[s.top];
    s.(nodes := s.nodes[s.top := n.(length := s.stringLength,
                                    memory := if s.firstPass then n.memory else n.memory + [NUL])],
       mode := Closing(Str(s.mode.sofar)), flags := s.flags.(inString := false, next := true))
  }

  lemma StringClosedOk(t: string, comments: bool, s: State, p: nat)
    requires Good(t, comments, s, p) && s.mode.InString? && !s.mode.isName && !s.mode.escaped && s.comment == NoComment
    requires At(t, p) == '"' && s.stringLength <= LENGTH_MAX
    ensures 0 <= s.top < |s.nodes| && Good(t, comments, StringClosed(s), p + 1)
  {
    hide TopIndex, StackSize, Emit, StackNodes, Result, Chain, Waiting, Written;
    StringTop(s);
    var r := FullString(t, false, s.mode.sofar, p);
    assert r == Ok(s.mode.sofar, p + 1) by { assert s.mode.sofar + "" == s.mode.sofar; }
    var x := Head(!s.firstPass, Str(s.mode.sofar), TopIndex(s.stack), StackSize(s.stack));
    assert StringClosed(s).nodes[s.top] == x by {
      if !s.firstPass { RoomForString(t, comments, s, p); }
    }
    StringClosedAgrees(s, x);
    hide NodesAgree, PointersAgree, Used;
  }

  lemma StringClosedAgrees(s: State, x: Node)
    requires s.mode.InString? && !s.mode.isName && Shape(!s.firstPass, s.mode, s.stack)
    requires NodesAgree(s) && PointersAgree(s, Used(s.mode, s.stack))
    requires 0 <= s.top < |s.nodes| && StringClosed(s).nodes[s.top] == x
    requires x == Head(!s.firstPass, Str(s.mode.sofar), TopIndex(s.stack), StackSize(s.stack))
    ensures var s' := StringClosed(s); NodesAgree(s') && PointersAgree(s', Used(s'.mode, s'.stack))
  {
    hide TopIndex, StackSize, StackNodes, Chain, Waiting, Written, Head, NodesAgree, PointersAgree, Shape;
    LeafReplaced(s, StringClosed(s), x);
  }

  /** The node of an object that has got one more name. */
  function NamedNode(fill: bool, n: Node, length: nat): Node {
    if fill then
      n.(memory := n.memory + [NUL], names := n.names + [(n.objectMem, length)], objectMem := n.objectMem + length + 1)
    else n.(nameBytes := n.nameBytes + length + 1)
  }

  /** After the closing quote of a name. */
  function NameClosed(s: State): State
    requires s.mode.InString? && 0 <= s.top < |s.nodes| && s.stack != []
  {
    var n := s.nodes[s.top];
    var f := s.stack[|s.stack| - 1];
    s.(nodes := s.nodes[s.top := NamedNode(!s.firstPass, n, s.stringLength)],
       mode := Seek(false, true), flags := s.flags.(inString := false, seekValue := true, needColon := true),
       stack := s.stack[..|s.stack| - 1] + [FObj(FrameNames(f) + [s.mode.sofar], f.done, "")])
  }

  lemma NameClosedFrame(fill: bool, f: Frame, sofar: string, parent: int, base: nat, plan: seq<Node>)
    requires f.FObj? && f.partial == (if fill then sofar else "")
    ensures var n := FrameNode(fill, f, parent, base, plan);
            FrameNode(fill, FObj(f.names + [sofar], f.done, ""), parent, base, plan) == NamedNode(fill, n, |sofar|)
  {
    hide NameMemory, NameSpans, Offsets, NameBytes;
    NamesSnoc(f.names, sofar);
    assert NameMemory(f.names + [sofar]) + "" == NameMemory(f.names) + sofar + [NUL];
  }

  lemma NameClosedResume(t: string, comments: bool, s: State, p: nat)
    requires p < |t| && Shape(!s.firstPass, s.mode, s.stack) && s.mode.InString? && s.mode.isName && !s.mode.escaped
    requires t[p] == '"' && |s.mode.sofar| <= LENGTH_MAX && 0 <= s.top < |s.nodes|
    ensures var s' := NameClosed(s);
            && Shape(!s.firstPass, s'.mode, s'.stack)
            && s'.stack[..|s.stack| - 1] == s.stack[..|s.stack| - 1]
            && Resume(t, comments, !s.firstPass, s'.stack, s'.mode, p + 1)
                == Resume(t, comments, !s.firstPass, s.stack, s.mode, p)
  {
    hide Result, Colon;
    var r := FullString(t, false, s.mode.sofar, p);
    assert r == Ok(s.mode.sofar, p + 1) by { assert s.mode.sofar + "" == s.mode.sofar; }
    var init := s.stack[..|s.stack| - 1];
    var s' := NameClosed(s);
    assert s'.stack[..|s'.stack| - 1] == init;
    assert AllWaiting(s'.stack) by {
      forall k | 0 <= k < |s'.stack| ensures Waiting(s'.stack[k]) { if k < |init| { assert s'.stack[k] == init[k]; } }
    }
  }

  lemma NameClosedAgrees(s: State)
    requires s.mode.InString? && s.mode.isName && Shape(!s.firstPass, s.mode, s.stack) && FlagsAgree(s)
    requires NodesAgree(s) && PointersAgree(s, Used(s.mode, s.stack))
    ensures 0 <= s.top < |s.nodes|
    ensures var s' := NameClosed(s); NodesAgree(s') && PointersAgree(s', Used(s'.mode, s'.stack))
  {
    hide FrameNode, TopIndex, StackSize, NamedNode, NodesAgree, PointersAgree, Used, FlagsAgree, Shape, NameClosed;
    StringTop(s);
    NameClosedParts(s);
    var f := s.stack[|s.stack| - 1];
    NameClosedFrame(!s.firstPass, f, s.mode.sofar, TopIndex(s.stack[..|s.stack| - 1]), s.top, s.plan);
    NameTopReplaced(s, NameClosed(s), NamedNode(!s.firstPass, s.nodes[s.top], s.stringLength));
  }

  lemma NameClosedParts(s: State)
    requires s.mode.InString? && s.mode.isName && Shape(!s.firstPass, s.mode, s.stack) && FlagsAgree(s)
    requires 0 <= s.top < |s.nodes|
    ensures s.stringLength == |s.mode.sofar| && s.stack != []
    ensures var s', f := NameClosed(s), s.stack[|s.stack| - 1]; var init := s.stack[..|s.stack| - 1];
            && f.FObj? && f.partial == (if s.firstPass then "" else s.mode.sofar)
            && s'.nodes == s.nodes[s.top := NamedNode(!s.firstPass, s.nodes[s.top], s.stringLength)]
            && s'.mode == Seek(false, true) && |s'.stack| == |s.stack| && s'.stack[..|s.stack| - 1] == init
            && s'.stack[|s.stack| - 1] == FObj(f.names + [s.mode.sofar], f.done, "")
            && s' == s.(nodes := s'.nodes, mode := s'.mode, stack := s'.stack, flags := s'.flags,
                        stringLength := s'.stringLength)
  {
    hide NamedNode, AllWaiting;
  }

  lemma NameClosedOk(t: string, comments: bool, s: State, p: nat)
    requires Good(t, comments, s, p) && s.mode.InString? && s.mode.isName && !s.mode.escaped && s.comment == NoComment
    requires At(t, p) == '"' && s.stringLength <= LENGTH_MAX
    ensures 0 <= s.top < |s.nodes| && Good(t, comments, NameClosed(s), p + 1)
  {
    hide NodesAgree, PointersAgree, Used, Resume, Waiting;
    NameClosedAgrees(s);
    NameClosedResume(t, comments, s, p);
  }

  // -------------------------------------------------------------------- numbers

  predicate InNumber(m: Mode) {
    m.InInteger? || m.InFraction? || m.InExponent?
  }

  /** The node of the number being read. */
  function NumberNode(m: Mode, parent: int): Node
    requires InNumber(m)
  {
    if m.InInteger? then Fresh(KInt, parent).(integer := m.val) else Fresh(KDouble, parent)
  }

  lemma NumberTop(t: string, comments: bool, s: State, p: nat)
    requires Good(t, comments, s, p) && InNumber(s.mode)
    ensures s.firstPass && s.comment == NoComment && 0 <= s.top < |s.nodes|
    ensures s.nodes[s.top] == NumberNode(s.mode, TopIndex(s.stack))
  {
    hide StackNodes, TopIndex, StackSize, Resume, Chain;
  }

  /** A number goes on in mode m, with node x, looking at position q next. */
  function Numbering(s: State, m: Mode, x: Node, flags: Flags, digits: nat): State
    requires 0 <= s.top < |s.nodes|
  {
    s.(mode := m, nodes := s.nodes[s.top := x], flags := flags, numDigits := digits)
  }

  lemma NumberingOk(t: string, comments: bool, s: State, p: nat, m: Mode, x: Node, flags: Flags, digits: nat, q: nat)
    requires Good(t, comments, s, p) && InNumber(s.mode) && q <= |t| && 0 <= s.top < |s.nodes|
    requires InNumber(m) || (m.Closing? && (m.v.Int? || m.v.Double?))
    requires x == if InNumber(m) then NumberNode(m, TopIndex(s.stack))
                  else Head(false, m.v, TopIndex(s.stack), StackSize(s.stack))
    requires Shape(false, m, s.stack) && FlagsAgree(Numbering(s, m, x, flags, digits))
    requires Resume(t, comments, false, s.stack, m, q) == Resume(t, comments, false, s.stack, s.mode, p)
    ensures Good(t, comments, Numbering(s, m, x, flags, digits), q)
  {
    hide TopIndex, StackSize, StackNodes, Chain, Waiting, Written;
    hide NodesAgree, PointersAgree, Resume, FlagsAgree, AllWaiting, Document;
    assert s.firstPass && s.comment == NoComment by { NumberTop(t, comments, s, p); }
    LeafReplaced(s, Numbering(s, m, x, flags, digits), x);
  }

  /** One more character of a number: the mode and position after it, None where the
      number is wrong. */
  function NumberStep(t: string, comments: bool, m: Mode, p: nat): Option<(Mode, nat)>
    requires InNumber(m) && p <= |t|
  {
    var b := At(t, p);
    if IsDigit(b) then
      match m
      case InInteger(neg, val, digits, zero) =>
        if zero then None
        else if WouldOverflow(val, DigitValue(b)) then Some((InFraction(digits), p))
        else Some((InInteger(neg, val * 10 + DigitValue(b), digits + 1, digits == 0 && b == '0'), p + 1))
      case InFraction(digits) => Some((InFraction(digits + 1), p + 1))
      case InExponent(_, digits) => Some((InExponent(true, digits + 1), p + 1))
    else if comments && b == '/' then None
    else if m.InExponent? && (b == '+' || b == '-') && !m.gotSign then Some((InExponent(true, m.digits), p + 1))
    else if m.InInteger? && b == '.' then
      if m.digits == 0 then None else Some((InFraction(0), p + 1))
    else if !m.InInteger? && m.digits == 0 then None
    else if !m.InExponent? && (b == 'e' || b == 'E') then Some((InExponent(false, 0), p + 1))
    else Some((Closing(if m.InInteger? then Int(if m.neg then -(m.val as int) else m.val) else DOUBLE), p))
  }

  lemma NumberStepResume(t: string, comments: bool, fill: bool, stack: seq<Frame>, m: Mode, p: nat)
    requires InNumber(m) && p <= |t| && AllWaiting(stack)
    ensures match NumberStep(t, comments, m, p)
            case None => Resume(t, comments, fill, stack, m, p).None?
            case Some(r) =>
              && (r.1 == p || r.1 == p + 1 <= |t|) && (InNumber(r.0) || r.0.Closing?)
              && (r.1 == p ==> Rank(NoComment, r.0) < Rank(NoComment, m) || r.0.Closing?)
              && Resume(t, comments, fill, stack, r.0, r.1) == Resume(t, comments, fill, stack, m, p)
  {
    hide Array, Object, Ends, AllWaiting;
    if p < |t| { } else { assert At(t, p) == NUL; }
  }

  /** The kind of the node that `top` points to tells the modes apart. */
  lemma TopKind(t: string, comments: bool, s: State, p: nat)
    requires Good(t, comments, s, p) && !s.mode.Closing? && !s.mode.Finished? && !(s.mode.InString? && !s.mode.isName)
    ensures !InNumber(s.mode) && s.stack == [] ==> s.top == -1
    ensures !InNumber(s.mode) && s.stack != [] ==>
              0 <= s.top < |s.nodes| && s.nodes[s.top].kind == if s.stack[|s.stack| - 1].FArr? then KArr else KObj
    ensures InNumber(s.mode) ==>
              0 <= s.top < |s.nodes| && s.nodes[s.top].kind == if s.mode.InInteger? then KInt else KDouble
    ensures s.mode.InObject? ==> s.stack != [] && s.stack[|s.stack| - 1].FObj?
    ensures s.mode.InObject? && s.stack != [] && 0 <= s.top < |s.nodes| ==>
              s.nodes[s.top].objectMem == if s.firstPass then 0 else NameBytes(FrameNames(s.stack[|s.stack| - 1]))
  {
    if InNumber(s.mode) {
      NumberTop(t, comments, s, p);
    } else {
      FrameTop(s);
    }
    hide StackNodes, StackSize, TopIndex, Chain, Waiting, FlagsAgree, NodesAgree, PointersAgree;
    hide PlanAgrees, ResumeAfter, NameMemory, NameSpans, NameBytes, Offsets;
  }

  /** The node of the innermost container, outside of numbers. */
  lemma FrameTop(s: State)
    requires Shape(!s.firstPass, s.mode, s.stack) && NodesAgree(s) && PointersAgree(s, Used(s.mode, s.stack))
    requires !HasLeaf(s.mode) && !s.mode.Finished?
    ensures s.stack == [] ==> s.top == -1
    ensures s.stack != [] ==>
              0 <= s.top < |s.nodes| && s.nodes[s.top].kind == if s.stack[|s.stack| - 1].FArr? then KArr else KObj
    ensures s.mode.InObject? ==> s.stack != [] && s.stack[|s.stack| - 1].FObj?
    ensures s.mode.InObject? && s.stack != [] && 0 <= s.top < |s.nodes| ==>
              s.nodes[s.top].objectMem == if s.firstPass then 0 else NameBytes(FrameNames(s.stack[|s.stack| - 1]))
  {
    hide StackNodes, StackSize, TopIndex, Chain, Waiting, Emit, EmitAll;
    hide NameMemory, NameSpans, NameBytes, Offsets;
    NoFrames(!s.firstPass, s.plan);
    if s.stack != [] {
      var init := s.stack[..|s.stack| - 1];
      var f := s.stack[|s.stack| - 1];
      assert s.stack == init + [f];
      var w := Written(!s.firstPass, s.mode, s.stack, s.plan);
      var rest := if s.firstPass then [] else s.plan[|w|..];
      assert w == StackNodes(!s.firstPass, s.stack, s.plan) && s.nodes == w + rest;
      PartialNodes(!s.firstPass, init, f, f, s.plan, rest);
    }
  }

  // ------------------------------------------------- numbers, as pass 2 sees them

  /** Every character of a number is one that pass 2 skips. */
  lemma NumberChars(t: string, comments: bool, p: nat)
    requires p < |t| && (IsDigit(t[p]) || t[p] == '-')
    ensures var r := Number(t, comments, p); r.Ok? ==> forall k | p <= k < r.pos :: IsNumberChar(At(t, k))
  {
    if t[p] == '-' {
      IntegerChars(t, comments, p + 1, true, 0, 0, false);
    } else {
      IntegerChars(t, comments, p, false, 0, 0, false);
    }
  }

  lemma {:induction false} IntegerChars(t: string, comments: bool, i: nat, neg: bool, val: nat, digits: nat, zero: bool)
    requires i <= |t|
    ensures var r := IntegerRest(t, comments, i, neg, val, digits, zero); r.Ok? ==>
              forall k | i <= k < r.pos :: IsNumberChar(At(t, k))
    decreases |t| - i
  {
    var b := At(t, i);
    if IsDigit(b) {
      if !zero {
        if WouldOverflow(val, DigitValue(b)) { FractionChars(t, comments, i, digits); }
        else { IntegerChars(t, comments, i + 1, neg, val * 10 + DigitValue(b), digits + 1, digits == 0 && b == '0'); }
      }
    } else if b == '.' && digits > 0 {
      FractionChars(t, comments, i + 1, 0);
    } else if b == 'e' || b == 'E' {
      ExponentChars(t, comments, i + 1, false, 0);
    }
  }

  lemma {:induction false} FractionChars(t: string, comments: bool, i: nat, digits: nat)
    requires i <= |t|
    ensures var r := FractionRest(t, comments, i, digits); r.Ok? ==> forall k | i <= k < r.pos :: IsNumberChar(At(t, k))
    decreases |t| - i
  {
    if IsDigit(At(t, i)) {
      FractionChars(t, comments, i + 1, digits + 1);
    } else if At(t, i) == 'e' || At(t, i) == 'E' {
      ExponentChars(t, comments, i + 1, false, 0);
    }
  }

  lemma {:induction false} ExponentChars(t: string, comments: bool, i: nat, gotSign: bool, digits: nat)
    requires i <= |t|
    ensures var r := ExponentRest(t, comments, i, gotSign, digits); r.Ok? ==>
              forall k | i <= k < r.pos :: IsNumberChar(At(t, k))
    decreases |t| - i
  {
    var b := At(t, i);
    if IsDigit(b) {
      ExponentChars(t, comments, i + 1, true, digits + 1);
    } else if (b == '+' || b == '-') && !gotSign {
      ExponentChars(t, comments, i + 1, true, digits);
    }
  }

  /** The number that pass 2 meets, and where its characters end. */
  lemma NumberHere(t: string, comments: bool, stack: seq<Frame>, p: nat)
    requires p < |t| && (IsDigit(t[p]) || t[p] == '-')
    requires Result(t, comments, stack, Value(t, comments, p)).Some?
    ensures var r := Value(t, comments, p);
            && r.Ok? && (r.value.Int? || r.value.Double?)
            && (forall k | p <= k < r.pos :: IsNumberChar(At(t, k)))
            && !IsNumberChar(At(t, r.pos))
  {
    var r := Value(t, comments, p);
    assert r == Number(t, comments, p);
    hide Value, Result, Number, IsNumberChar;
    assert r.Ok? by { ResultFails(t, comments, stack); }
    NumberChars(t, comments, p);
    AfterNumber(t, comments, stack, r);
  }

  /** In a good text no number is followed by a character that pass 2 would skip. */
  lemma AfterNumber(t: string, comments: bool, stack: seq<Frame>, r: Parsed<Json>)
    requires r.Ok? && r.pos <= |t| && Result(t, comments, stack, r).Some?
    ensures !IsNumberChar(At(t, r.pos))
  {
    hide Value, StringRest;
    assert !IsNumberChar(At(t, r.pos)) || Skip(t, comments, r.pos).Some?;
  }
}
