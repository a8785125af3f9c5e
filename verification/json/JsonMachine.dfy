/** The states of the parsing machine, and what each state still has to yield.

    `Resume` gives the outcome of the parse from a state, in terms of the grammar:
    the rest of the innermost value, handed to the enclosing containers in turn.
    Every step of the machine keeps that outcome, so the machine decides exactly
    the grammar's language and builds exactly its trees. */
module JsonMachine {
  import opened Parts
  import opened Wrappers
  import opened JsonGrammar
  import opened JsonArena

  /** What the flags say the machine is doing between two characters. */
  datatype Mode =
    | Seek(needComma: bool, needColon: bool)
    | AtValue
    | InObject(comma: bool)
    | InString(isName: bool, escaped: bool, sofar: string)
    | InInteger(neg: bool, val: nat, digits: nat, zero: bool)
    | InFraction(digits: nat)
    | InExponent(gotSign: bool, digits: nat)
    | Closing(v: Json)
    | Finished(v: Json)

  datatype Comment = NoComment | LineComment | BlockComment

  /** The outcome once the innermost open container receives result r. */
  function Result(t: string, comments: bool, stack: seq<Frame>, r: Parsed<Json>): Option<Json>
    requires r.Ok? ==> r.pos <= |t|
    decreases |stack|
  {
    if r.Fail? then None
    else if stack == [] then
      if Ends(t, comments, r.pos) then Some(r.value) else None
    else
      var f := stack[|stack| - 1];
      var init := stack[..|stack| - 1];
      if |f.done| >= LENGTH_MAX then None
      else if f.FArr? then Result(t, comments, init, Array(t, comments, r.pos, f.done + [r.value], true))
      else if |f.names| != |f.done| + 1 then None
      else Result(t, comments, init, Object(t, comments, r.pos, f.names, f.done + [r.value], true))
  }

  /** A frame that waits for a value. */
  predicate Waiting(f: Frame) {
    f.FArr? || (|f.names| == |f.done| + 1 && f.partial == "")
  }

  predicate AllWaiting(stack: seq<Frame>) {
    forall k | 0 <= k < |stack| :: Waiting(stack[k])
  }

  /** The open containers agree with the mode. */
  predicate Shape(fill: bool, mode: Mode, stack: seq<Frame>) {
    match mode
    case Seek(needComma, needColon) =>
      && AllWaiting(stack)
      && (needComma ==> stack != [] && stack[|stack| - 1].FArr?)
      && (needColon ==> stack != [] && stack[|stack| - 1].FObj?)
    case InObject(comma) => Named(stack, "")
    case InString(isName, _, sofar) =>
      if isName then Named(stack, if fill then sofar else "") else AllWaiting(stack)
    case Finished(v) => stack == []
    case _ => AllWaiting(stack)
  }

  /** The innermost container is an object that has all its values. */
  predicate Named(stack: seq<Frame>, partial: string) {
    && stack != []
    && AllWaiting(stack[..|stack| - 1])
    && var f := stack[|stack| - 1]; f.FObj? && |f.names| == |f.done| && f.partial == partial
  }

  /** The rest of a string literal, with the part already read put before it. */
  function FullString(t: string, escaped: bool, sofar: string, i: nat): (r: Parsed<string>)
    requires i <= |t|
    ensures r.Ok? ==> i < r.pos <= |t|
  {
    if |sofar| > LENGTH_MAX then Fail
    else if escaped then
      var e := Escape(t, i);
      if e.Fail? then Fail
      else
        var rest := StringRest(t, e.pos, |sofar| + |e.value|);
        if rest.Fail? then Fail else Ok(sofar + e.value + rest.value, rest.pos)
    else
      var rest := StringRest(t, i, |sofar|);
      if rest.Fail? then Fail else Ok(sofar + rest.value, rest.pos)
  }

  function Root(t: string, comments: bool, i: nat): (r: Parsed<Json>)
    requires i <= |t|
    ensures r.Ok? ==> r.pos <= |t|
  {
    var k := Skip(t, comments, i);
    if k.None? then Fail else Value(t, comments, k.value)
  }

  /** The outcome of the parse from mode, open containers and position. */
  function Resume(t: string, comments: bool, fill: bool, stack: seq<Frame>, mode: Mode, i: nat): Option<Json>
    requires i <= |t| && Shape(fill, mode, stack)
  {
    match mode
    case Seek(needComma, needColon) =>
      if stack == [] then Result(t, comments, [], Root(t, comments, i))
      else
        var f := stack[|stack| - 1];
        var init := stack[..|stack| - 1];
        if f.FArr? then Result(t, comments, init, Array(t, comments, i, f.done, needComma))
        else if needColon then Result(t, comments, init, Colon(t, comments, i, f.names, f.done))
        else Result(t, comments, init, Member(t, comments, i, f.names, f.done))
    case AtValue => Result(t, comments, stack, Value(t, comments, i))
    case InObject(comma) =>
      var f := stack[|stack| - 1];
      Result(t, comments, stack[..|stack| - 1], Object(t, comments, i, f.names, f.done, comma))
    case InString(isName, escaped, sofar) =>
      var s := FullString(t, escaped, sofar, i);
      if s.Fail? then None
      else if isName then
        var f := stack[|stack| - 1];
        Result(t, comments, stack[..|stack| - 1], Colon(t, comments, s.pos, f.names + [s.value], f.done))
      else Result(t, comments, stack, Ok(Str(s.value), s.pos))
    case InInteger(neg, val, digits, zero) =>
      Result(t, comments, stack, IntegerRest(t, comments, i, neg, val, digits, zero))
    case InFraction(digits) => Result(t, comments, stack, FractionRest(t, comments, i, digits))
    case InExponent(gotSign, digits) => Result(t, comments, stack, ExponentRest(t, comments, i, gotSign, digits))
    case Closing(v) => Result(t, comments, stack, Ok(v, i))
    case Finished(v) => if Ends(t, comments, i) then Some(v) else None
  }

  /** Position at which the machine leaves a comment, if it does. */
  function Leave(t: string, comment: Comment, i: nat): (r: Option<nat>)
    requires i <= |t|
    ensures r.Some? ==> i <= r.value <= |t|
  {
    match comment
    case NoComment => Some(i)
    case LineComment => Some(LineEnd(t, i))
    case BlockComment => BlockEnd(t, i)
  }

  function ResumeAfter(t: string, comments: bool, fill: bool, comment: Comment, stack: seq<Frame>, mode: Mode,
                       i: nat): Option<Json>
    requires i <= |t| && Shape(fill, mode, stack)
  {
    var k := Leave(t, comment, i);
    if k.None? then None else Resume(t, comments, fill, stack, mode, k.value)
  }

  /** Rank of the states that may follow each other at one position. */
  function Rank(comment: Comment, mode: Mode): nat {
    if comment != NoComment then 10 else
      match mode
      case Seek(needComma, needColon) => if needComma then 2 else 7
      case AtValue => 6
      case InInteger(_, _, _, _) => 5
      case InFraction(_) => 4
      case InExponent(_, _) => 3
      case Closing(_) => 3
      case InObject(_) => 2
      case InString(_, _, _) => 1
      case Finished(_) => 0
  }

  /** The node of a string being read. */
  function StringNode(fill: bool, parent: int, base: nat, plan: seq<Node>, sofar: string): Node {
    if fill then
      Fresh(KStr, parent).(capacity := if base < |plan| then plan[base].length + 1 else 0, memory := sofar)
    else Fresh(KStr, parent)
  }

  /** The node of the value being read or just read, if it is not on the stack. */
  function LeafNodes(fill: bool, mode: Mode, stack: seq<Frame>, plan: seq<Node>): seq<Node> {
    var base := StackSize(stack);
    var parent := TopIndex(stack);
    match mode
    case InString(isName, _, sofar) =>
      if isName then [] else [StringNode(fill, parent, base, plan, sofar)]
    case InInteger(_, val, _, _) => [Fresh(KInt, parent).(integer := val)]
    case InFraction(_) => [Fresh(KDouble, parent)]
    case InExponent(_, _) => [Fresh(KDouble, parent)]
    case Closing(v) => Emit(fill, v, parent, base)
    case Finished(v) => Emit(fill, v, -1, 0)
    case _ => []
  }

  /** All nodes written in this pass. */
  function Written(fill: bool, mode: Mode, stack: seq<Frame>, plan: seq<Node>): seq<Node> {
    StackNodes(fill, stack, plan) + LeafNodes(fill, mode, stack, plan)
  }

  /** The flag bits; those that only affect the value of a double are left out. */
  datatype Flags = Flags(next: bool, needComma: bool, seekValue: bool, escaped: bool, inString: bool,
                         needColon: bool, done: bool, negative: bool, zero: bool, e: bool, eGotSign: bool,
                         lineComment: bool, blockComment: bool)

  /** A snapshot of the machine, with the ghost state that explains it. */
  datatype State = State(firstPass: bool, nodes: seq<Node>, nextAlloc: seq<int>, top: int, root: int, alloc: int,
                         flags: Flags, stringBase: nat, stringLength: nat, numDigits: nat,
                         stack: seq<Frame>, mode: Mode, comment: Comment, plan: seq<Node>)

  /** The flags and counters say what the mode says. */
  predicate FlagsAgree(s: State)
    requires Shape(!s.firstPass, s.mode, s.stack)
  {
    var f := s.flags;
    var m := s.mode;
    && f.next == m.Closing?
    && f.seekValue == m.Seek?
    && f.inString == m.InString?
    && f.done == m.Finished?
    && f.lineComment == s.comment.LineComment?
    && f.blockComment == s.comment.BlockComment?
    && (s.comment != NoComment ==> m.Seek? || m.InObject? || m.Finished?)
    && f.escaped == (m.InString? && m.escaped)
    && f.needColon == (m.Seek? && m.needColon)
    && f.needComma == ((m.Seek? && m.needComma) || (m.InObject? && m.comma) || m.Finished?)
    && (m.InString? ==>
          && s.stringLength == |m.sofar|
          && (!s.firstPass ==> s.stringBase == if m.isName then NameBytes(s.stack[|s.stack| - 1].names) else 0))
    && (m.InInteger? ==> !f.e && !f.eGotSign && f.negative == m.neg && f.zero == m.zero && s.numDigits == m.digits)
    && (m.InFraction? ==> !f.e && !f.eGotSign && s.numDigits == m.digits)
    && (m.InExponent? ==> f.e && f.eGotSign == m.gotSign && s.numDigits == m.digits)
    && (m.InInteger? || m.InFraction? || m.InExponent? ==> s.firstPass)
  }

  /** Whether the value being read, or just read, has a node beyond the stack. */
  predicate HasLeaf(m: Mode) {
    m.Closing? || m.InInteger? || m.InFraction? || m.InExponent? || (m.InString? && !m.isName)
  }

  /** The node that `top` points to. */
  function TopOf(m: Mode, stack: seq<Frame>): int {
    if HasLeaf(m) then StackSize(stack) else if m.Finished? then 0 else TopIndex(stack)
  }

  /** The chain of allocations: each node points to the next, the last to none. */
  predicate Chain(nextAlloc: seq<int>) {
    forall k | 0 <= k < |nextAlloc| :: nextAlloc[k] == if k + 1 < |nextAlloc| then k + 1 else -1
  }

  /** The nodes are those written in this pass, and then those still to be taken. */
  predicate NodesAgree(s: State) {
    var w := Written(!s.firstPass, s.mode, s.stack, s.plan);
    if s.firstPass then s.nodes == w else |w| <= |s.plan| && s.nodes == w + s.plan[|w|..]
  }

  /** The variables that hold node numbers hold the right ones. */
  predicate PointersAgree(s: State, used: nat) {
    && |s.nextAlloc| == |s.nodes|
    && Chain(s.nextAlloc)
    && s.root == (if used == 0 then -1 else 0)
    && s.alloc == (if s.firstPass then |s.nodes| - 1 else if used < |s.nodes| then used else -1)
    && s.top == TopOf(s.mode, s.stack)
  }

  /** Number of nodes written in this pass. */
  function Used(m: Mode, stack: seq<Frame>): nat {
    StackSize(stack) + if m.Closing? || m.Finished? then Size(m.v) else if HasLeaf(m) then 1 else 0
  }

  /** In pass 2 the text is known to be good, and the plan is what pass 1 left. */
  predicate PlanAgrees(t: string, comments: bool, s: State) {
    if s.firstPass then s.plan == []
    else Document(t, comments).Some? && s.plan == Emit(false, Document(t, comments).value, -1, 0)
  }

  /** The invariant of the machine when position p is to be looked at next. */
  predicate Good(t: string, comments: bool, s: State, p: int) {
    && 0 <= p <= |t|
    && Shape(!s.firstPass, s.mode, s.stack)
    && FlagsAgree(s)
    && (s.comment != NoComment ==> comments)
    && PlanAgrees(t, comments, s)
    && NodesAgree(s)
    && PointersAgree(s, Used(s.mode, s.stack))
    && ResumeAfter(t, comments, !s.firstPass, s.comment, s.stack, s.mode, p) == Document(t, comments)
  }

  /** The allocation step: a zeroed node at the end of the chain in pass 1, the
      next node of the chain, with its buffers allocated, in pass 2. */
  function NewNode(s: State, kind: Kind): State
    requires |s.nextAlloc| == |s.nodes|
    requires if s.firstPass then s.alloc < |s.nodes| else 0 <= s.alloc < |s.nodes|
  {
    if s.firstPass then
      var n := |s.nodes|;
      s.(nodes := s.nodes + [Fresh(kind, s.top)],
         nextAlloc := (if s.alloc >= 0 then s.nextAlloc[s.alloc := n] else s.nextAlloc) + [-1],
         top := n, alloc := n, root := if s.root == -1 then n else s.root)
    else
      s.(nodes := s.nodes[s.alloc := Prepared(s.nodes[s.alloc])],
         top := s.alloc, alloc := s.nextAlloc[s.alloc], root := if s.root == -1 then s.alloc else s.root)
  }

  // ------------------------------------------------------------------- lemmas

  /** White space and comments are transparent wherever the grammar skips them. */
  lemma SkipSame(t: string, comments: bool, fill: bool, stack: seq<Frame>, mode: Mode, i: nat, k: nat)
    requires i <= |t| && k <= |t| && Shape(fill, mode, stack)
    requires mode.Seek? || mode.InObject? || mode.Finished?
    requires Skip(t, comments, i) == Skip(t, comments, k)
    ensures Resume(t, comments, fill, stack, mode, i) == Resume(t, comments, fill, stack, mode, k)
  {
    hide Result, Value, AllWaiting, Skip;
  }

  lemma SkipFails(t: string, comments: bool, fill: bool, stack: seq<Frame>, mode: Mode, i: nat)
    requires i <= |t| && Shape(fill, mode, stack)
    requires mode.Seek? || mode.InObject? || mode.Finished?
    requires Skip(t, comments, i).None?
    ensures Resume(t, comments, fill, stack, mode, i).None?
  {
    hide Value, Skip;
  }

  /** At a value's first character the outcome is that of the value. */
  lemma SeekAtValue(t: string, comments: bool, fill: bool, stack: seq<Frame>, i: nat)
    requires i <= |t| && Shape(fill, Seek(false, false), stack)
    requires Skip(t, comments, i) == Some(i)
    requires stack != [] && stack[|stack| - 1].FArr? ==> At(t, i) != ']'
    ensures Resume(t, comments, fill, stack, Seek(false, false), i) == Result(t, comments, stack, Value(t, comments, i))
  {
    hide Value, Skip;
  }

  lemma HeadFirst(w: Json, parent: int, base: nat)
    requires IsContainer(w)
    ensures Emit(false, w, parent, base) == [Head(false, w, parent, base)] + EmitAll(false, w.items, base, base + 1)
  {
    hide EmitAll, Head, Size;
  }

  lemma NextItem(done: seq<Json>, v: Json, items: seq<Json>)
    requires done + [v] <= items
    ensures |done| < |items| && done <= items && items[|done|] == v
  {
    assert (done + [v])[..|done|] == done && (done + [v])[|done|] == v;
  }

  /** Where a container's nodes stand, its next child's stand too. */
  lemma LocateChild(plan: seq<Node>, w: Json, parent: int, base: nat, done: seq<Json>, v: Json)
    requires IsContainer(w) && done + [v] <= w.items
    requires Has(plan, Emit(false, w, parent, base), base)
    ensures Has(plan, Emit(false, v, base, base + 1 + SizeAll(done)), base + 1 + SizeAll(done))
  {
    hide Emit, EmitAll, Head, Size, SizeAll, Has;
    var all := EmitAll(false, w.items, base, base + 1);
    HeadFirst(w, parent, base);
    HasPart(plan, base, [Head(false, w, parent, base)], all);
    NextItem(done, v, w.items);
    EmitAllHas(false, done, w.items, base, base + 1);
    HasInHas(plan, all, Emit(false, v, base, base + 1 + SizeAll(done)), base + 1, SizeAll(done));
  }

  /** Pass 1 left the nodes of each value where pass 2 meets that value. */
  lemma {:induction false} Locate(t: string, comments: bool, stack: seq<Frame>, r: Parsed<Json>, tree: Json)
    requires r.Ok? && r.pos <= |t|
    requires Result(t, comments, stack, r) == Some(tree)
    ensures Has(Emit(false, tree, -1, 0), Emit(false, r.value, TopIndex(stack), StackSize(stack)), StackSize(stack))
    decreases |stack|
  {
    hide Emit, Object, Number, BlockEnd;
    var plan := Emit(false, tree, -1, 0);
    if stack != [] {
      var f := stack[|stack| - 1];
      var init := stack[..|stack| - 1];
      var base := StackSize(init);
      var w := if f.FArr? then Array(t, comments, r.pos, f.done + [r.value], true)
               else Object(t, comments, r.pos, f.names, f.done + [r.value], true);
      assert Result(t, comments, init, w) == Some(tree);
      Locate(t, comments, init, w, tree);
      assert f.done + [r.value] <= w.value.items;
      LocateChild(plan, w.value, TopIndex(init), base, f.done, r.value);
    }
  }

  /** The node that pass 1 left for a value, where pass 2 meets that value. */
  lemma LocateHead(t: string, comments: bool, stack: seq<Frame>, r: Parsed<Json>, tree: Json)
    requires r.Ok? && r.pos <= |t|
    requires Result(t, comments, stack, r) == Some(tree)
    ensures var plan := Emit(false, tree, -1, 0); var base := StackSize(stack);
            base + Size(r.value) <= |plan| && plan[base] == Head(false, r.value, TopIndex(stack), base)
  {
    Locate(t, comments, stack, r, tree);
    var x := Emit(false, r.value, TopIndex(stack), StackSize(stack));
    assert x[0] == Head(false, r.value, TopIndex(stack), StackSize(stack));
    assert Emit(false, tree, -1, 0)[StackSize(stack)..StackSize(stack) + |x|][0] == x[0];
  }

  /** Opening a container adds its node at the end. */
  lemma PushNodes(fill: bool, stack: seq<Frame>, f: Frame, plan: seq<Node>)
    requires f.done == []
    ensures StackSize(stack + [f]) == StackSize(stack) + 1
    ensures TopIndex(stack + [f]) == StackSize(stack)
    ensures StackNodes(fill, stack + [f], plan)
         == StackNodes(fill, stack, plan) + [FrameNode(fill, f, TopIndex(stack), StackSize(stack), plan)]
  {
    assert (stack + [f])[..|stack|] == stack;
  }

  /** A container's nodes split into those before it, its own, and its children's. */
  lemma TopNodes(fill: bool, stack: seq<Frame>, f: Frame, plan: seq<Node>)
    ensures StackSize(stack + [f]) == StackSize(stack) + 1 + SizeAll(f.done)
    ensures TopIndex(stack + [f]) == StackSize(stack)
    ensures StackNodes(fill, stack + [f], plan)
         == StackNodes(fill, stack, plan) + [FrameNode(fill, f, TopIndex(stack), StackSize(stack), plan)]
          + EmitAll(fill, f.done, StackSize(stack), StackSize(stack) + 1)
  {
    hide EmitAll, FrameNode, SizeAll;
    var s := stack + [f];
    assert s[..|s| - 1] == stack && s[|s| - 1] == f;
  }

  /** A node of pass 1 with its buffers allocated and its length reset. */
  function Prepared(n: Node): Node {
    if (n.kind == KArr || n.kind == KObj) && n.length == 0 then n
    else if n.kind == KArr then n.(capacity := n.length, values := [], length := 0)
    else if n.kind == KObj then
          n.(capacity := n.length, values := [], names := [], memory := "", objectMem := 0, length := 0)
    else if n.kind == KStr then n.(capacity := n.length + 1, memory := "", length := 0)
    else n
  }

  /** The node of a container that has just been opened. */
  lemma FreshFrame(fill: bool, isObject: bool, parent: int, base: nat, plan: seq<Node>, v: Json)
    requires fill ==> base < |plan| && plan[base] == Head(false, v, parent, base) && if isObject then v.Obj? else v.Arr?
    ensures var f := if isObject then FObj([], [], "") else FArr([]);
            (FrameNode(fill, f, parent, base, plan)
         == if fill then Prepared(plan[base]) else Fresh(if isObject then KObj else KArr, parent))
  {
  }

  /** Replacing the first node of the rest of the plan moves it to the written part. */
  lemma TakeNext(written: seq<Node>, plan: seq<Node>, x: Node)
    requires |written| < |plan|
    ensures (written + plan[|written|..])[|written| := x] == written + [x] + plan[|written| + 1..]
  {
  }

  /** The written part has the length that `Used` gives. */
  lemma WrittenLength(fill: bool, m: Mode, stack: seq<Frame>, plan: seq<Node>)
    requires Shape(fill, m, stack)
    ensures |Written(fill, m, stack, plan)| == Used(m, stack)
  {
    hide StackNodes, Emit, FrameNode;
    assert m.Finished? ==> stack == [];
  }

  /** What pass 2 finds at a value: the grammar accepts it, and the next node of the
      chain is the one that pass 1 made for it. */
  lemma NextNode(t: string, comments: bool, s: State, p: nat)
    requires Good(t, comments, s, p) && s.mode == AtValue && s.comment == NoComment
    ensures |s.nextAlloc| == |s.nodes| && Chain(s.nextAlloc)
    ensures s.root == (if StackSize(s.stack) == 0 then -1 else 0) && s.top == TopIndex(s.stack)
    ensures StackSize(s.stack) <= |s.nodes| == |s.plan| || s.firstPass
    ensures s.nodes
         == StackNodes(!s.firstPass, s.stack, s.plan) + if s.firstPass then [] else s.plan[StackSize(s.stack)..]
    ensures s.firstPass ==> s.alloc == |s.nodes| - 1 && |s.nodes| == StackSize(s.stack)
    ensures !s.firstPass ==>
              && var r := Value(t, comments, p);
              && r.Ok?
              && s.alloc == StackSize(s.stack) < |s.plan| == |s.nodes|
              && s.nodes[s.alloc] == s.plan[s.alloc] == Head(false, r.value, TopIndex(s.stack), s.alloc)
              && s.alloc + Size(r.value) <= |s.plan|
  {
    hide Value, Emit, StackNodes, FrameNode, Size;
    var r := Value(t, comments, p);
    WrittenLength(!s.firstPass, s.mode, s.stack, s.plan);
    if !s.firstPass {
      assert Result(t, comments, s.stack, r) == Document(t, comments);
      LocateHead(t, comments, s.stack, r, Document(t, comments).value);
    }
  }

  /** After an allocation the chain is still a chain and the pointers are right. */
  lemma NewNodeOk(t: string, comments: bool, s: State, p: nat, kind: Kind)
    requires Good(t, comments, s, p) && s.mode == AtValue && s.comment == NoComment
    ensures |s.nextAlloc| == |s.nodes| && (if s.firstPass then s.alloc < |s.nodes| else 0 <= s.alloc < |s.nodes|)
    ensures var s' := NewNode(s, kind); var base := StackSize(s.stack);
            && s' == s.(nodes := s'.nodes, nextAlloc := s'.nextAlloc, top := base, root := 0, alloc := s'.alloc)
            && |s'.nextAlloc| == |s'.nodes| && Chain(s'.nextAlloc)
            && s'.alloc == (if s.firstPass then |s'.nodes| - 1 else if base + 1 < |s'.nodes| then base + 1 else -1)
            && s'.nodes == StackNodes(!s.firstPass, s.stack, s.plan)
                           + [if s.firstPass then Fresh(kind, TopIndex(s.stack)) else Prepared(s.plan[base])]
                           + if s.firstPass then [] else s.plan[base + 1..]
  {
    hide Good, Value, Emit, StackNodes, FrameNode, Size, StackSize, TopIndex, Prepared, Result;
    NextNode(t, comments, s, p);
    if !s.firstPass {
      TakeNext(StackNodes(true, s.stack, s.plan), s.plan, Prepared(s.plan[s.alloc]));
    }
  }
}
