/** The two-pass parser of lib/json-parser.c: a machine driven by flags, run over
    the text twice. Pass 1 counts and allocates nodes, pass 2 fills the buffers. */
module JsonParser {
  import opened Wrappers
  import opened JsonGrammar
  import opened JsonArena
  import opened JsonMachine
  import opened JsonSteps

  /** How a section of the loop body ends: with the next character, by falling
      through to the end of the body, by failing, or by ending the pass. */
  datatype Flow = Continue | FallThrough | Failed | Break

  class Parser {
    const text: string
    const comments: bool

    var firstPass: bool
    var ptr: int
    var nodes: seq<Node>
    var nextAlloc: seq<int>
    var top: int
    var root: int
    var alloc: int
    var flags: Flags
    var reproc: bool
    var stringBase: nat
    var stringLength: nat
    var numDigits: nat

    ghost var stack: seq<Frame>
    ghost var mode: Mode
    ghost var comment: Comment
    ghost var plan: seq<Node>

    ghost function Snap(): State
      reads this
    {
      State(firstPass, nodes, nextAlloc, top, root, alloc, flags, stringBase, stringLength, numDigits, stack, mode,
            comment, plan)
    }

    ghost predicate Inv(p: int)
      reads this
    {
      Good(text, comments, Snap(), p)
    }

    /** What a section has achieved, coming from position p with rank `rank`. */
    ghost predicate Achieved(f: Flow, p: int, rank: nat)
      reads this
    {
      match f
      case Failed => Document(text, comments).None?
      case Break => !reproc && mode.Finished? && Document(text, comments) == Some(mode.v)
          && nodes == Emit(!firstPass, mode.v, -1, 0)
                    && Chain(nextAlloc) && |nextAlloc| == |nodes| && root == 0
      case Continue => Inv(ptr + 1) && !reproc && !mode.Closing? && mode != AtValue
          && Advances(p, rank, ptr + 1, Rank(comment, mode))
      case FallThrough =>
        var q := if reproc then ptr else ptr + 1;
        && Inv(q) && comment == NoComment && mode != AtValue
        && if mode.Closing? then q > p || (q == p && rank >= 3) else Advances(p, rank, q, Rank(comment, mode))
    }

    /** Progress from position p to position q, or to a lower rank at p. */
    static ghost predicate Advances(p: int, rank: nat, q: int, newRank: nat) {
      q > p || (q == p && newRank < rank)
    }

    /** A byte order mark in front of the text is skipped. */
    constructor (t: string, c: bool)
      ensures text == SkipMark(t) && comments == c
    {
      text, comments := t, c;
      if |t| >= 3 && t[0] == 0xEF as char && t[1] == 0xBB as char && t[2] == 0xBF as char {
        text := t[3..];
      }
    }

    // ------------------------------------------------------------- allocation

    /** Allocates the buffers of a node that pass 1 has measured. */
    static method Prepare(n: Node) returns (r: Node)
      ensures r == Prepared(n)
    {
      r := n;
      match n.kind {
        case KArr =>
          if n.length != 0 {
            r := n.(capacity := n.length, values := [], length := 0);
          }
        case KObj =>
          if n.length != 0 {
            r := n.(capacity := n.length, values := [], names := [], memory := "", objectMem := 0, length := 0);
          }
        case KStr =>
          r := n.(capacity := n.length + 1, memory := "", length := 0);
        case _ =>
      }
    }

    /** Allocates a node in pass 1, takes the next node of the chain in pass 2. */
    method NewValue(kind: Kind)
      requires CanAllocate(Snap())
      modifies `nodes, `nextAlloc, `top, `root, `alloc
      ensures Snap() == NewNode(old(Snap()), kind)
    {
      hide Prepared;
      if !firstPass {
        var value := alloc;
        top := value;
        alloc := nextAlloc[alloc];
        if root == -1 {
          root := value;
        }
        var n := Prepare(nodes[value]);
        nodes := nodes[value := n];
        return;
      }
      var value := |nodes|;
      nodes := nodes + [Fresh(kind, top)];
      if root == -1 {
        root := value;
      }
      if alloc >= 0 {
        nextAlloc := nextAlloc[alloc := value];
      }
      nextAlloc := nextAlloc + [-1];
      alloc, top := value, value;
    }

    // ---------------------------------------------------------------- strings

    /** Size of the buffer that the characters of a string go into. */
    static function Room(n: Node): nat {
      if n.kind == KObj then n.nameBytes else n.capacity
    }

    /** Stores one character at the end of what is stored, within the buffer. */
    method Store(b: char)
      requires 0 <= top < |nodes|
      requires stringBase + stringLength == |nodes[top].memory| < Room(nodes[top])
      modifies `nodes
      ensures nodes == old(nodes)[top := old(nodes)[top].(memory := old(nodes)[top].memory + [b])]
    {
      nodes := nodes[top := nodes[top].(memory := nodes[top].memory + [b])];
    }

    /** Counts characters in pass 1, stores them in pass 2. */
    method AddChars(x: string)
      requires 0 <= top < |nodes|
      requires !firstPass ==>
                 stringBase + stringLength == |nodes[top].memory| && |nodes[top].memory| + |x| < Room(nodes[top])
      modifies `nodes, `stringLength
      ensures stringLength == old(stringLength) + |x|
      ensures nodes == if firstPass then old(nodes)
                       else old(nodes)[top := old(nodes)[top].(memory := old(nodes)[top].memory + x)]
    {
      if firstPass {
        stringLength := stringLength + |x|;
        return;
      }
      var i := 0;
      assert old(nodes)[top].memory + x[..0] == old(nodes)[top].memory;
      while i < |x|
        invariant i <= |x| && |nodes| == |old(nodes)|
        invariant stringLength == old(stringLength) + i
        invariant nodes == old(nodes)[top := old(nodes)[top].(memory := old(nodes)[top].memory + x[..i])]
      {
        Store(x[i]);
        stringLength := stringLength + 1;
        i := i + 1;
        assert x[..i] == x[..i - 1] + [x[i - 1]];
        assert old(nodes)[top].memory + x[..i - 1] + [x[i - 1]] == old(nodes)[top].memory + x[..i];
      }
      assert x[..|x|] == x;
    }

    /** Reads four hexadecimal digits after ptr. */
    method ReadHex4() returns (r: Option<nat>)
      requires ptr >= 0
      modifies `ptr
      ensures r == Hex4(text, old(ptr) + 1)
      ensures r.Some? ==> ptr == old(ptr) + 4
    {
      ptr := ptr + 1;
      var h1 := HexValue(At(text, ptr));
      if h1.None? { return None; }
      ptr := ptr + 1;
      var h2 := HexValue(At(text, ptr));
      if h2.None? { return None; }
      ptr := ptr + 1;
      var h3 := HexValue(At(text, ptr));
      if h3.None? { return None; }
      ptr := ptr + 1;
      var h4 := HexValue(At(text, ptr));
      if h4.None? { return None; }
      return Some((h1.value * 16 + h2.value) * 0x100 + (h3.value * 16 + h4.value));
    }

    /** Reads the digits of a `\u` escape, and of the second half of a pair. */
    method ReadUnicode() returns (r: Option<nat>)
      requires 0 <= ptr <= |text|
      modifies `ptr
      ensures var e := UnicodeEscape(text, old(ptr));
              if e.Fail? then r.None? else r == Some(e.value) && ptr + 1 == e.pos
    {
      if |text| - ptr <= 4 { return None; }
      var u := ReadHex4();
      if u.None? { return None; }
      if 0xD800 <= u.value < 0xE000 {
        if |text| - ptr <= 6 { return None; }
        ptr := ptr + 1;
        if text[ptr] != '\\' { return None; }
        ptr := ptr + 1;
        if text[ptr] != 'u' { return None; }
        var u2 := ReadHex4();
        if u2.None? { return None; }
        return Some(PairValue(u.value, u2.value));
      }
      return u;
    }

    /** What the escape with character b after the backslash stands for. */
    method DecodeEscape(b: char) returns (r: Option<string>)
      requires 0 <= ptr < |text| && b == text[ptr] != NUL
      modifies `ptr
      ensures var e := Escape(text, old(ptr)); if e.Fail? then r.None? else r == Some(e.value) && ptr + 1 == e.pos
    {
      hide UnicodeEscape, Utf8;
      match b {
        case 'b' => r := Some([BACKSPACE]);
        case 'f' => r := Some([FORMFEED]);
        case 'n' => r := Some(['\n']);
        case 'r' => r := Some(['\r']);
        case 't' => r := Some(['\t']);
        case 'u' =>
          var u := ReadUnicode();
          r := if u.None? then None else Some(Utf8(u.value));
        case _ => r := Some([b]);
      }
    }

    /** The character after a backslash. */
    method EscapeSection(b: char) returns (f: Flow)
      requires Inv(ptr) && mode.InString? && mode.escaped && comment == NoComment && !reproc
      requires 0 <= ptr < |text| && b == text[ptr] != NUL && stringLength <= LENGTH_MAX
      modifies this
      ensures firstPass == old(firstPass) && plan == old(plan) && f in {Continue, Failed}
      ensures Achieved(f, old(ptr), old(Rank(comment, mode)))
    {
      hide Good, Escape, Document, NextChars, Emit, Chain;
      ghost var s, p := Snap(), ptr;
      NextEscaped(text, p);
      var x := DecodeEscape(b);
      if x.None? {
        StringFails(text, comments, s, p);
        return Failed;
      }
      AddDecoded(x.value, p);
      return Continue;
    }

    /** Adds what a character, or an escape, of the string stands for. */
    method AddDecoded(x: string, ghost p: nat)
      requires mode.InString? && comment == NoComment && p < |text| && stringLength <= LENGTH_MAX && ptr >= 0
      requires NextChars(text, mode.escaped, p) == Ok(x, ptr + 1)
      requires Inv(p)
      modifies `flags, `nodes, `stringLength, `stack, `mode
      ensures mode.InString? && Inv(ptr + 1)
    {
      hide Good, NextChars, Room, Added;
      ghost var s := Snap();
      flags := flags.(escaped := false);
      Adding(s, p, x, ptr + 1);
      AddChars(x);
      ghost var now := Added(s, x);
      stack, mode := now.stack, now.mode;
    }

    /** Before characters are added: there is room for them, and afterwards all is well. */
    lemma Adding(s: State, p: nat, x: string, q: nat)
      requires Good(text, comments, s, p) && s.mode.InString? && s.comment == NoComment && p < |text|
      requires s.stringLength <= LENGTH_MAX && NextChars(text, s.mode.escaped, p) == Ok(x, q)
      ensures 0 <= s.top < |s.nodes| && (s.mode.isName ==> s.stack != [])
      ensures !s.firstPass ==>
                && s.stringBase + s.stringLength == |s.nodes[s.top].memory|
                && |s.nodes[s.top].memory| + |x| < Room(s.nodes[s.top])
      ensures var now := Added(s, x);
              && Good(text, comments, now, q) && now.mode.InString?
              && now == s.(mode := now.mode, stack := now.stack, flags := s.flags.(escaped := false),
                           stringLength := s.stringLength + |x|,
                           nodes := if s.firstPass then s.nodes
                                    else s.nodes[s.top := s.nodes[s.top].(memory := s.nodes[s.top].memory + x)])
    {
      hide Good, NextChars, Room, Added;
      StringSectionTop(s, p, x);
      AddedOk(text, comments, s, p);
      AddedIs(s, x);
    }

    /** What adding characters changes in memory. */
    lemma AddedIs(s: State, x: string)
      requires s.mode.InString? && (s.mode.isName ==> s.stack != []) && 0 <= s.top < |s.nodes|
      ensures Added(s, x).mode.InString?
      ensures Added(s, x)
           == s.(mode := Added(s, x).mode, stack := Added(s, x).stack, flags := s.flags.(escaped := false),
                 stringLength := s.stringLength + |x|,
                 nodes := if s.firstPass then s.nodes
                          else s.nodes[s.top := s.nodes[s.top].(memory := s.nodes[s.top].memory + x)])
    {
    }

    /** Where the characters of a string go, and that they fit. */
    lemma StringSectionTop(s: State, p: nat, x: string)
      requires Good(text, comments, s, p) && s.mode.InString? && s.comment == NoComment && p < |text|
      requires s.stringLength <= LENGTH_MAX
      requires x == "" || exists q :: NextChars(text, s.mode.escaped, p) == Ok(x, q)
      ensures 0 <= s.top < |s.nodes|
      ensures s.mode.isName ==> s.stack != [] && s.nodes[s.top].kind == KObj
      ensures !s.mode.isName ==> s.nodes[s.top].kind == KStr
      ensures !s.firstPass ==>
                && s.stringBase + s.stringLength == |s.nodes[s.top].memory|
                && |s.nodes[s.top].memory| + |x| < Room(s.nodes[s.top])
                && (s.mode.isName ==> |s.nodes[s.top].names| == s.nodes[s.top].length < s.nodes[s.top].capacity)
    {
      hide NodesAgree, PointersAgree, Used, Resume, FullString, NextChars, Written, TopIndex, StackSize;
      StringTop(s);
      if !s.firstPass {
        RoomForString(text, comments, s, p);
        if x != "" {
          FullStringStep(text, s.mode.escaped, s.mode.sofar, p);
        } else {
          FullLonger(text, s.mode.escaped, s.mode.sofar, p);
        }
      }
    }

    /** Replaces the node that `top` points to. */
    method SetTop(n: Node, ghost before: seq<Node>)
      requires 0 <= top < |nodes| == |before|
      requires nodes == before[top := nodes[top]]
      modifies `nodes
      ensures nodes == before[top := n]
    {
      nodes := nodes[top := n];
    }

    /** The closing quote of a string value. */
    method CloseString()
      requires mode.InString? && !mode.isName && !mode.escaped && comment == NoComment && !reproc
      requires At(text, ptr) == '"' && stringLength <= LENGTH_MAX
      requires Inv(ptr)
      modifies this
      ensures firstPass == old(firstPass) && plan == old(plan) && reproc == old(reproc) && ptr == old(ptr)
      ensures comment == NoComment && mode.Closing? && Inv(ptr + 1)
    {
      hide Good, Document, Room;
      ghost var s := Snap();
      StringSectionTop(s, ptr, "");
      if !firstPass {
        Store(NUL);
      }
      SetTop(nodes[top].(length := stringLength), s.nodes);
      flags := flags.(inString := false, next := true);
      StringClosedOk(text, comments, s, ptr);
      mode := Closing(Str(s.mode.sofar));
      assert Snap() == StringClosed(s);
    }

    /** The closing quote of a name. */
    method CloseName()
      requires mode.InString? && mode.isName && !mode.escaped && comment == NoComment && !reproc
      requires At(text, ptr) == '"' && stringLength <= LENGTH_MAX
      requires Inv(ptr)
      modifies this
      ensures firstPass == old(firstPass) && plan == old(plan) && reproc == old(reproc) && ptr == old(ptr)
      ensures comment == NoComment && mode.Seek? && Inv(ptr + 1)
    {
      hide Good, Document, Room, NameClosed;
      ghost var s := Snap();
      StringSectionTop(s, ptr, "");
      if firstPass {
        SetTop(nodes[top].(nameBytes := nodes[top].nameBytes + stringLength + 1), s.nodes);
      } else {
        Store(NUL);
        var n := AddName(nodes[top], nodes[top].objectMem, stringLength);
        SetTop(n.(objectMem := n.objectMem + stringLength + 1), s.nodes);
      }
      flags := flags.(inString := false, seekValue := true, needColon := true);
      NameClosedOk(text, comments, s, ptr);
      NameClosedIs(s);
      stack, mode := NameClosed(s).stack, NameClosed(s).mode;
    }

    /** What closing a name changes in memory. */
    lemma NameClosedIs(s: State)
      requires s.mode.InString? && 0 <= s.top < |s.nodes| && s.stack != []
      ensures NameClosed(s).mode.Seek?
      ensures NameClosed(s)
           == s.(nodes := s.nodes[s.top := NamedNode(!s.firstPass, s.nodes[s.top], s.stringLength)],
                 mode := NameClosed(s).mode, stack := NameClosed(s).stack,
                 flags := s.flags.(inString := false, seekValue := true, needColon := true))
    {
    }

    /** The closing quote. */
    method QuoteSection() returns (f: Flow)
      requires mode.InString? && !mode.escaped && comment == NoComment && !reproc
      requires At(text, ptr) == '"' && stringLength <= LENGTH_MAX
      requires Inv(ptr)
      modifies this
      ensures firstPass == old(firstPass) && plan == old(plan)
      ensures Achieved(f, old(ptr), old(Rank(comment, mode)))
    {
      hide Good, Document, Emit, Chain;
      StringSectionTop(Snap(), ptr, "");
      if nodes[top].kind == KStr {
        CloseString();
        return FallThrough;
      }
      CloseName();
      return Continue;
    }

    /** Writes the name of the entry in slot `length`. */
    static function AddName(n: Node, offset: nat, length: nat): Node
      requires |n.names| == n.length < n.capacity
    {
      n.(names := n.names + [(offset, length)])
    }

    /** A character inside a string. */
    method StringSection(b: char) returns (f: Flow)
      requires mode.InString? && comment == NoComment && !reproc && 0 <= ptr && b == At(text, ptr)
      requires Inv(ptr)
      modifies this
      ensures firstPass == old(firstPass) && plan == old(plan)
      ensures Achieved(f, old(ptr), old(Rank(comment, mode)))
    {
      hide Good, Document, Escape, Emit, Chain, Rank;
      ghost var s, p := Snap(), ptr;
      StringFlags(s, p);
      if b == NUL || stringLength > LENGTH_MAX {
        StringFails(text, comments, s, p);
        return Failed;
      }
      if flags.escaped {
        f := EscapeSection(b);
        return;
      }
      if b == '\\' {
        flags := flags.(escaped := true);
        BackslashedOk(text, comments, s, p);
        mode := mode.(escaped := true);
        assert Snap() == Backslashed(s);
        return Continue;
      }
      if b == '"' {
        f := QuoteSection();
        return;
      }
      AddDecoded([b], p);
      return Continue;
    }

    lemma StringFlags(s: State, p: int)
      requires s.mode.InString? && Good(text, comments, s, p)
      ensures s.flags.escaped == s.mode.escaped && s.stringLength == |s.mode.sofar|
      ensures 0 <= p <= |text|
      ensures !s.flags.seekValue && !s.flags.done && !s.flags.next && !s.flags.lineComment && !s.flags.blockComment
    {
      hide NodesAgree, PointersAgree, ResumeAfter, PlanAgrees;
    }

    // --------------------------------------------- white space, comments, commas

    /** What the flags and the node on top say outside strings. */
    lemma OuterFlags(s: State, p: int)
      requires !s.mode.InString? && Good(text, comments, s, p)
      ensures 0 <= p <= |text|
      ensures s.flags.next == s.mode.Closing? && s.flags.seekValue == s.mode.Seek? && s.flags.done == s.mode.Finished?
      ensures s.flags.lineComment == s.comment.LineComment? && s.flags.blockComment == s.comment.BlockComment?
      ensures s.flags.inString == false
      ensures s.comment != NoComment ==> comments && (s.mode.Seek? || s.mode.InObject? || s.mode.Finished?)
      ensures s.mode.Seek? ==>
                && s.flags.needComma == s.mode.needComma && s.flags.needColon == s.mode.needColon
                && !(s.mode.needComma && s.mode.needColon)
      ensures s.mode.InObject? ==> s.flags.needComma == s.mode.comma
    {
      hide NodesAgree, PointersAgree, ResumeAfter, PlanAgrees;
    }

    /** Inside a comment. */
    method CommentSection(b: char) returns (f: Flow)
      requires !mode.InString? && !mode.Closing? && comment != NoComment && !reproc && ptr >= 0 && b == At(text, ptr)
      requires Inv(ptr)
      modifies this
      ensures firstPass == old(firstPass) && plan == old(plan) && f != FallThrough
      ensures Achieved(f, old(ptr), old(Rank(comment, mode)))
    {
      hide Good, Document, Emit, Chain;
      ghost var s, p := Snap(), ptr;
      OuterFlags(s, p);
      if flags.lineComment {
        if b == '\r' || b == '\n' || b == NUL {
          flags := flags.(lineComment := false);
          ptr := ptr - 1;
          CommentEnds(text, comments, s, p, p);
          comment := NoComment;
          assert Snap() == Commented(s, NoComment);
          return Continue;
        }
        CommentGoesOn(text, comments, s, p);
        return Continue;
      }
      if b == NUL {
        assert Document(text, comments).None? by { OpenComment(s, p); }
        return Failed;
      }
      if b == '*' && ptr < |text| - 1 && text[ptr + 1] == '/' {
        flags := flags.(blockComment := false);
        ptr := ptr + 1;
        CommentEnds(text, comments, s, p, p + 2);
        comment := NoComment;
        assert Snap() == Commented(s, NoComment);
        return Continue;
      }
      CommentGoesOn(text, comments, s, p);
      return Continue;
    }

    /** A block comment that does not end fails. */
    lemma OpenComment(s: State, p: nat)
      requires Good(text, comments, s, p) && s.comment.BlockComment? && At(text, p) == NUL
      ensures Document(text, comments).None?
    {
      hide NodesAgree, PointersAgree, Resume, FlagsAgree, PlanAgrees;
    }

    /** A slash, when comments are enabled. */
    method SlashSection() returns (f: Flow)
      requires !mode.InString? && !mode.Closing? && mode != AtValue && comment == NoComment && !reproc && ptr >= 0
      requires comments && At(text, ptr) == '/'
      requires Inv(ptr)
      modifies this
      ensures firstPass == old(firstPass) && plan == old(plan) && f != FallThrough
      ensures Achieved(f, old(ptr), old(Rank(comment, mode)))
    {
      hide Good, Document, Emit, Chain, Leave, Rank;
      ghost var s, p := Snap(), ptr;
      OuterFlags(s, p);
      if !(flags.seekValue || flags.done) {
        TopKind(text, comments, s, p);
        if nodes[top].kind != KObj {
          SlashInNumber(s, p);
          return Failed;
        }
      }
      SkippingHere(s, p);
      f := CommentBegins();
    }

    /** A slash where a comment may begin. */
    method CommentBegins() returns (f: Flow)
      requires Skipping(mode) && !mode.InString? && !mode.Closing? && mode != AtValue && comment == NoComment && !reproc
      requires ptr >= 0
      requires comments && At(text, ptr) == '/'
      requires Inv(ptr)
      modifies `flags, `ptr, `comment
      ensures f != FallThrough && Achieved(f, old(ptr), old(Rank(comment, mode)))
    {
      hide Good, Document, Emit, Chain, Leave, Rank, Skipping;
      ghost var s, p := Snap(), ptr;
      OuterFlags(s, p);
      ptr := ptr + 1;
      if ptr == |text| {
        CommentFails(text, comments, s, p);
        return Failed;
      }
      match text[ptr] {
        case '/' =>
          flags := flags.(lineComment := true);
          CommentOpens(text, comments, s, p, LineComment);
          comment := LineComment;
          assert Snap() == Commented(s, LineComment);
          return Continue;
        case '*' =>
          flags := flags.(blockComment := true);
          CommentOpens(text, comments, s, p, BlockComment);
          comment := BlockComment;
          assert Snap() == Commented(s, BlockComment);
          return Continue;
        case _ =>
          CommentFails(text, comments, s, p);
          return Failed;
      }
    }

    lemma SkippingHere(s: State, p: nat)
      requires Good(text, comments, s, p) && !s.mode.InString? && !s.mode.Closing? && s.mode != AtValue
      requires s.mode.Seek? || s.mode.Finished? || (0 <= s.top < |s.nodes| && s.nodes[s.top].kind == KObj)
      ensures Skipping(s.mode)
    {
      hide NodesAgree, PointersAgree, Resume, FlagsAgree, PlanAgrees, ResumeAfter;
      if !s.mode.Finished? {
        TopKind(text, comments, s, p);
      }
    }

    lemma SlashInNumber(s: State, p: nat)
      requires Good(text, comments, s, p) && InNumber(s.mode) && comments && At(text, p) == '/'
      ensures Document(text, comments).None?
    {
      hide NodesAgree, PointersAgree, PlanAgrees;
      assert s.comment == NoComment && s.firstPass && AllWaiting(s.stack);
      NumberStepResume(text, comments, false, s.stack, s.mode, p);
    }

    /** After the root value. */
    method DoneSection(b: char) returns (f: Flow)
      requires mode.Finished? && comment == NoComment && !reproc && ptr >= 0 && b == At(text, ptr)
      requires !(comments && b == '/')
      requires Inv(ptr)
      modifies this
      ensures firstPass == old(firstPass) && plan == old(plan) && f != FallThrough
      ensures Achieved(f, old(ptr), old(Rank(comment, mode)))
    {
      hide Good, Document, Emit, Chain;
      ghost var s, p := Snap(), ptr;
      if IsSpace(b) {
        SpaceOk(text, comments, s, p);
        return Continue;
      }
      FinishedOk(text, comments, s, p);
      if b == NUL {
        return Break;
      }
      return Failed;
    }

    // ---------------------------------------------------------- seeking a value

    /** Where a value, or the separator before it, is due. */
    method SeekSection(b: char) returns (f: Flow)
      requires mode.Seek? && comment == NoComment && !reproc && ptr >= 0 && b == At(text, ptr)
      requires !(comments && b == '/')
      requires Inv(ptr)
      modifies this
      ensures firstPass == old(firstPass) && plan == old(plan)
      ensures Achieved(f, old(ptr), old(Rank(comment, mode)))
    {
      hide Good, Document, Emit, Chain;
      ghost var s, p := Snap(), ptr;
      OuterFlags(s, p);
      TopKind(text, comments, s, p);
      if IsSpace(b) {
        SpaceOk(text, comments, s, p);
        return Continue;
      }
      if b == ']' {
        if top >= 0 && nodes[top].kind == KArr {
          Close();
          return FallThrough;
        }
        StrayBracket(text, comments, s, p);
        return Failed;
      }
      if flags.needComma || flags.needColon {
        f := SeparatorSection(b);
        return;
      }
      flags := flags.(seekValue := false);
      ChosenOk(text, comments, s, p);
      mode := AtValue;
      assert Snap() == Chosen(s);
      f := ValueSection(b);
    }

    /** A comma or a colon is due. */
    method SeparatorSection(b: char) returns (f: Flow)
      requires mode.Seek? && (flags.needComma || flags.needColon) && comment == NoComment && !reproc && ptr >= 0
      requires b == At(text, ptr)
      requires Matters(text, comments, ptr) && b != ']'
      requires Inv(ptr)
      modifies this
      ensures firstPass == old(firstPass) && plan == old(plan)
      ensures Achieved(f, old(ptr), old(Rank(comment, mode)))
    {
      hide Good, Document, Emit, Chain;
      ghost var s, p := Snap(), ptr;
      OuterFlags(s, p);
      if b == (if flags.needComma then ',' else ':') {
        SeparatedOk(text, comments, s, p);
        if flags.needComma {
          flags := flags.(needComma := false);
        } else {
          flags := flags.(needColon := false);
        }
        mode := Seek(false, false);
        assert Snap() == Separated(s);
        return Continue;
      }
      SeparatorMissing(text, comments, s, p);
      return Failed;
    }

    /** The bracket that closes the innermost container. */
    method Close()
      requires !reproc && ptr >= 0 && AtClose(text, Snap(), ptr)
      requires Inv(ptr)
      modifies this
      ensures firstPass == old(firstPass) && plan == old(plan) && reproc == old(reproc) && ptr == old(ptr)
      ensures mode.Closing? && comment == NoComment && Inv(ptr + 1)
    {
      hide Good;
      ghost var s := Snap();
      flags := flags.(needComma := false, seekValue := false, next := true);
      ClosedOk(text, comments, s, ptr);
      ghost var s' := Closed(s);
      stack, mode := s'.stack, s'.mode;
      assert Snap() == s';
    }

    /** The first character of a value. */
    method ValueSection(b: char) returns (f: Flow)
      requires mode == AtValue && comment == NoComment && !reproc && ptr >= 0 && b == At(text, ptr)
      requires Inv(ptr)
      modifies this
      ensures firstPass == old(firstPass) && plan == old(plan)
      ensures Achieved(f, old(ptr), 6)
    {
      hide Good, Document, Emit, Chain, Value;
      ghost var s, p := Snap(), ptr;
      OuterFlags(s, p);
      match b {
        case '{' =>
          Open(true);
          return Continue;
        case '[' =>
          Open(false);
          return Continue;
        case '"' =>
          OpenString();
          return Continue;
        case 't' =>
          f := WordSection("true", Bool(true));
        case 'f' =>
          f := WordSection("false", Bool(false));
        case 'n' =>
          f := WordSection("null", Null);
        case _ =>
          if IsDigit(b) || b == '-' {
            f := NumberStart(b);
            return;
          }
          BadValue(s, p);
          return Failed;
      }
    }

    lemma BadValue(s: State, p: nat)
      requires Good(text, comments, s, p) && s.mode == AtValue && s.comment == NoComment
      requires var b := At(text, p);
               b != '{' && b != '[' && b != '"' && b != 't' && b != 'f' && b != 'n' && b != '-' && !IsDigit(b)
      ensures Document(text, comments).None?
    {
      hide NodesAgree, PointersAgree, Resume, FlagsAgree, PlanAgrees, ResumeAfter;
      NoValue(text, comments, s, p);
    }

    method Open(isObject: bool)
      requires mode == AtValue && comment == NoComment && !reproc && ptr >= 0
      requires At(text, ptr) == if isObject then '{' else '['
      requires Inv(ptr)
      modifies this
      ensures firstPass == old(firstPass) && plan == old(plan) && reproc == old(reproc) && ptr == old(ptr)
      ensures (mode.Seek? || mode.InObject?) && comment == NoComment && Inv(ptr + 1)
    {
      hide Good, NewNode;
      ghost var s := Snap();
      OuterFlags(s, ptr);
      OpenedOk(text, comments, s, ptr, isObject);
      KeepsRest(s, if isObject then KObj else KArr);
      NewValue(if isObject then KObj else KArr);
      if !isObject {
        flags := flags.(seekValue := true);
      }
      ghost var s' := Opened(s, isObject);
      stack, mode := s'.stack, s'.mode;
      assert Snap() == s';
    }

    /** An allocation leaves everything but the nodes and their numbers alone. */
    static lemma KeepsRest(s: State, kind: Kind)
      requires CanAllocate(s)
      ensures var n := NewNode(s, kind);
              n == s.(nodes := n.nodes, nextAlloc := n.nextAlloc, top := n.top, root := n.root, alloc := n.alloc)
    {
    }

    method OpenString()
      requires mode == AtValue && comment == NoComment && !reproc && ptr >= 0 && At(text, ptr) == '"'
      requires Inv(ptr)
      modifies this
      ensures firstPass == old(firstPass) && plan == old(plan) && reproc == old(reproc) && ptr == old(ptr)
      ensures mode.InString? && comment == NoComment && Inv(ptr + 1)
    {
      hide StringNode, TopIndex, At;
      hide StackSize;
      hide Good, NewNode;
      ghost var s := Snap();
      QuotedOk(text, comments, s, ptr);
      QuotedNodes(s, ptr);
      KeepsRest(s, KStr);
      NewValue(KStr);
      flags := flags.(inString := true);
      stringBase, stringLength := 0, 0;
      mode := InString(false, false, "");
      assert Snap() == Quoted(s);
    }

    lemma QuotedNodes(s: State, p: nat)
      requires Good(text, comments, s, p) && s.mode == AtValue && s.comment == NoComment && At(text, p) == '"'
      requires CanAllocate(s)
      ensures Quoted(s).nodes == NewNode(s, KStr).nodes
    {
      hide Good, NewNode, StackNodes, StackSize, TopIndex;
      NewNodeOk(text, comments, s, p, KStr);
      NextNode(text, comments, s, p);
      var n := NewNode(s, KStr);
      assert !s.firstPass ==> s.plan[n.top] == Head(false, Value(text, comments, p).value, TopIndex(s.stack), n.top);
      assert n.nodes[n.top] == StringNode(!s.firstPass, TopIndex(s.stack), StackSize(s.stack), s.plan, "");
    }

    /** Looks ahead for the rest of a word; on success ptr is at its last character. */
    method MatchWord(word: string) returns (ok: bool)
      requires ptr >= 0 && |word| > 0 && At(text, ptr) == word[0] != NUL && NUL !in word
      modifies `ptr
      ensures ok == (old(ptr) + |word| <= |text| && text[old(ptr)..old(ptr) + |word|] == word)
      ensures ok ==> ptr == old(ptr) + |word| - 1
    {
      ghost var p := ptr;
      if |text| - ptr < |word| - 1 {
        return false;
      }
      var k := 1;
      while k < |word|
        invariant 1 <= k <= |word| && ptr == p + k - 1
        invariant p + k <= |text| && text[p..p + k] == word[..k]
      {
        ptr := ptr + 1;
        if At(text, ptr) != word[k] {
          assert p + |word| <= |text| ==> text[p..p + |word|][k] != word[k];
          return false;
        }
        assert word[k] in word;
        assert text[p..p + k + 1] == text[p..p + k] + [text[p + k]] && word[..k + 1] == word[..k] + [word[k]];
        k := k + 1;
      }
      assert word[..|word|] == word;
      return true;
    }

    /** One of the words `true`, `false` and `null`. */
    method WordSection(word: string, v: Json) returns (f: Flow)
      requires mode == AtValue && comment == NoComment && !reproc && ptr >= 0
      requires (word == "true" && v == Bool(true)) || (word == "false" && v == Bool(false))
               || (word == "null" && v == Null)
      requires At(text, ptr) == word[0]
      requires Inv(ptr)
      modifies this
      ensures firstPass == old(firstPass) && plan == old(plan)
      ensures Achieved(f, old(ptr), 6)
    {
      hide Good, Document, Emit, Chain, Value, NewNode, Literal, KindOf;
      ghost var s, p := Snap(), ptr;
      OuterFlags(s, p);
      WordValue(p, word, v);
      var ok := MatchWord(word);
      if !ok {
        NoValue(text, comments, s, p);
        return Failed;
      }
      MakeWord(word, v, p);
      return FallThrough;
    }

    method MakeWord(word: string, v: Json, ghost p: nat)
      requires mode == AtValue && comment == NoComment && !reproc && v in {Null, Bool(true), Bool(false)}
      requires |word| > 0 && p <= |text| && Value(text, comments, p) == Literal(text, p, word, v)
      requires p + |word| <= |text| && text[p..p + |word|] == word
      requires Inv(p)
      modifies `nodes, `nextAlloc, `top, `root, `alloc, `flags, `mode
      ensures mode.Closing? && Inv(p + |word|)
    {
      hide Good, Document, Value, NewNode, Literal, KindOf;
      ghost var s := Snap();
      WordedOk(text, comments, s, p, word, v);
      KeepsRest(s, KindOf(v));
      TopInRange(s, p, KindOf(v));
      NewValue(KindOf(v));
      if v == Bool(true) {
        nodes := nodes[top := nodes[top].(boolean := true)];
      }
      flags := flags.(next := true);
      mode := Closing(v);
      assert Snap() == Worded(s, v);
    }

    lemma TopInRange(s: State, p: nat, kind: Kind)
      requires Good(text, comments, s, p) && s.mode == AtValue && s.comment == NoComment && CanAllocate(s)
      ensures 0 <= NewNode(s, kind).top < |NewNode(s, kind).nodes|
    {
      hide Good, NewNode, StackNodes, StackSize, TopIndex;
      NewNodeOk(text, comments, s, p, kind);
      NextNode(text, comments, s, p);
    }

    lemma WordValue(p: nat, word: string, v: Json)
      requires p <= |text|
      requires (word == "true" && v == Bool(true)) || (word == "false" && v == Bool(false))
               || (word == "null" && v == Null)
      requires At(text, p) == word[0]
      ensures p < |text| && text[p..p + 1] == word[..1]
      ensures Value(text, comments, p) == Literal(text, p, word, v)
      ensures (p + |word| <= |text| && text[p..p + |word|] == word) || Value(text, comments, p).Fail?
    {
    }

    // ---------------------------------------------------------------- numbers

    /** The first character of a number. */
    method NumberStart(b: char) returns (f: Flow)
      requires mode == AtValue && comment == NoComment && !reproc && ptr >= 0 && b == At(text, ptr)
      requires IsDigit(b) || b == '-'
      requires Inv(ptr)
      modifies this
      ensures firstPass == old(firstPass) && plan == old(plan)
      ensures Achieved(f, old(ptr), 6)
    {
      hide Good, Document, Emit, Chain, Value, NewNode;
      ghost var s, p := Snap(), ptr;
      OuterFlags(s, p);
      if !firstPass {
        f := NumberSkip(b);
        return;
      }
      NumberedOk(text, comments, s, p, b == '-');
      OpenNumber(b == '-');
      if b != '-' {
        reproc := true;
        return FallThrough;
      }
      return Continue;
    }

    /** The node of a number, and what is known of it before its digits. */
    method OpenNumber(negative: bool)
      requires mode == AtValue && comment == NoComment && CanAllocate(Snap())
      modifies `nodes, `nextAlloc, `top, `root, `alloc, `flags, `numDigits, `mode
      ensures Snap() == Numbered(old(Snap()), negative)
    {
      hide NewNode;
      ghost var s := Snap();
      KeepsRest(s, KInt);
      NewValue(KInt);
      flags := flags.(negative := false, e := false, eGotSign := false, zero := false);
      numDigits := 0;
      mode := InInteger(negative, 0, 0, false);
      if negative {
        flags := flags.(negative := true);
      }
      assert Snap() == Numbered(s, negative);
    }

    lemma AtNumber(s: State, p: nat)
      requires Good(text, comments, s, p) && s.mode == AtValue && s.comment == NoComment && !s.firstPass
      requires IsDigit(At(text, p)) || At(text, p) == '-'
      ensures var r := Value(text, comments, p);
              && r.Ok? && (r.value.Int? || r.value.Double?)
              && (forall k | p <= k < r.pos :: IsNumberChar(At(text, k)))
              && !IsNumberChar(At(text, r.pos))
    {
      hide NodesAgree, PointersAgree, FlagsAgree, Value, Result, Emit, IsNumberChar;
      NumberHere(text, comments, s.stack, p);
    }

    /** Pass 2 skips the characters of a number whose value pass 1 has stored. */
    method NumberSkip(b0: char) returns (f: Flow)
      requires mode == AtValue && comment == NoComment && !reproc && ptr >= 0 && b0 == At(text, ptr) && !firstPass
      requires IsDigit(b0) || b0 == '-'
      requires Inv(ptr)
      modifies this
      ensures firstPass == old(firstPass) && plan == old(plan)
      ensures Achieved(f, old(ptr), 6)
    {
      hide Good, Document, Emit, Chain, Value, NewNode;
      ghost var s, p := Snap(), ptr;
      OuterFlags(s, p);
      ghost var r := Value(text, comments, p);
      AtNumber(s, p);
      ghost var q := r.pos;
      SkippedOk(text, comments, s, p, q, r.value);
      KeepsRest(s, KInt);
      NewValue(KInt);
      ghost var s1 := Snap();
      var b := b0;
      while IsNumberChar(b)
        invariant p <= ptr <= q && b == At(text, ptr) && !reproc && Snap() == s1
        decreases |text| - ptr
      {
        ptr := ptr + 1;
        if ptr == |text| {
          b := NUL;
          break;
        }
        b := text[ptr];
      }
      assert ptr == q;
      flags := flags.(next := true);
      reproc := true;
      mode := Closing(r.value);
      assert Snap() == Skipped(s, r.value);
      return FallThrough;
    }

    /** A character of a number in pass 1. */
    method NumberSection(b: char) returns (f: Flow)
      requires InNumber(mode) && comment == NoComment && !reproc && ptr >= 0 && b == At(text, ptr)
      requires !(comments && b == '/')
      requires Inv(ptr)
      modifies this
      ensures firstPass == old(firstPass) && plan == old(plan)
      ensures Achieved(f, old(ptr), old(Rank(comment, mode)))
    {
      hide Good, Document, Emit, Chain, Resume;
      ghost var s, p := Snap(), ptr;
      NumberFacts(s, p);
      ghost var st := NumberStep(text, comments, mode, p);
      if IsDigit(b) {
        f := DigitSection(b);
        return;
      }
      if b == '+' || b == '-' {
        if flags.e && !flags.eGotSign {
          SetNumber(nodes[top], flags.(eGotSign := true), numDigits, InExponent(true, numDigits), p + 1, p);
          return Continue;
        }
      } else if b == '.' && nodes[top].kind == KInt {
        if numDigits == 0 {
          return Failed;
        }
        SetNumber(nodes[top].(kind := KDouble, integer := 0), flags, 0, InFraction(0), p + 1, p);
        return Continue;
      }
      f := NumberEndSection(b);
    }

    /** A character that starts the exponent of a number, or ends the number. */
    method NumberEndSection(b: char) returns (f: Flow)
      requires InNumber(mode) && comment == NoComment && !reproc && ptr >= 0 && b == At(text, ptr)
      requires !(comments && b == '/') && !IsDigit(b) && !((b == '+' || b == '-') && mode.InExponent? && !mode.gotSign)
      requires !(b == '.' && mode.InInteger?)
      requires Inv(ptr)
      modifies this
      ensures firstPass == old(firstPass) && plan == old(plan)
      ensures Achieved(f, old(ptr), old(Rank(comment, mode)))
    {
      hide NameBytes;
      hide Good, Document, Emit, Chain, Resume;
      ghost var s, p := Snap(), ptr;
      NumberFacts(s, p);
      if !flags.e {
        if nodes[top].kind == KDouble && numDigits == 0 {
          return Failed;
        }
        if b == 'e' || b == 'E' {
          SetNumber(nodes[top].(kind := KDouble, integer := 0), flags.(e := true, zero := false), 0,
                    InExponent(false, 0), p + 1, p);
          return Continue;
        }
      } else if numDigits == 0 {
        return Failed;
      }
      FinishNumber();
      return FallThrough;
    }

    /** The value that a number has when it ends in mode m. */
    static ghost function NumberValue(m: Mode): Json
      requires InNumber(m)
    {
      if m.InInteger? then Int(if m.neg then -(m.val as int) else m.val) else DOUBLE
    }

    /** A number ends in front of this character. */
    method FinishNumber()
      requires InNumber(mode) && comment == NoComment && !reproc && 0 <= ptr <= |text|
      requires NumberStep(text, comments, mode, ptr) == Some((Closing(NumberValue(mode)), ptr))
      requires Inv(ptr)
      modifies `nodes, `flags, `numDigits, `mode, `reproc
      ensures reproc && mode.Closing? && Inv(ptr)
    {
      hide Good, Document, Emit, Chain, Resume, NumberStep;
      ghost var s := Snap();
      NumberFacts(s, ptr);
      var n := nodes[top];
      if flags.negative && n.kind == KInt {
        n := n.(integer := -n.integer);
      }
      SetNumber(n, flags.(next := true), numDigits, Closing(NumberValue(mode)), ptr, ptr);
      reproc := true;
    }

    /** A digit of a number in pass 1. */
    method DigitSection(b: char) returns (f: Flow)
      requires InNumber(mode) && comment == NoComment && !reproc && ptr >= 0 && b == At(text, ptr) && IsDigit(b)
      requires Inv(ptr)
      modifies this
      ensures firstPass == old(firstPass) && plan == old(plan)
      ensures Achieved(f, old(ptr), old(Rank(comment, mode)))
    {
      hide Good, Document, Emit, Chain, Resume;
      ghost var s, p := Snap(), ptr;
      NumberFacts(s, p);
      if nodes[top].kind == KInt || flags.e {
        if !flags.e {
          if flags.zero {
            return Failed;
          }
        } else {
          SetNumber(nodes[top], flags.(eGotSign := true), numDigits + 1, InExponent(true, numDigits + 1), p + 1, p);
          return Continue;
        }
        if WouldOverflow(nodes[top].integer, DigitValue(b)) {
          ptr := ptr - 1;
          SetNumber(nodes[top].(kind := KDouble, integer := 0), flags, numDigits, InFraction(numDigits), p, p);
          return Continue;
        }
        SetNumber(nodes[top].(integer := nodes[top].integer * 10 + DigitValue(b)),
                  if numDigits + 1 == 1 && b == '0' then flags.(zero := true) else flags, numDigits + 1,
                  InInteger(mode.neg, mode.val * 10 + DigitValue(b), mode.digits + 1, mode.digits == 0 && b == '0'),
                  p + 1, p);
        return Continue;
      }
      SetNumber(nodes[top], flags, numDigits + 1, InFraction(numDigits + 1), p + 1, p);
      return Continue;
    }

    /** Sets the node, the flags and the digit count of the number being read. */
    method SetNumber(n: Node, fl: Flags, digits: nat, ghost m: Mode, ghost q: nat, ghost p: nat)
      requires InNumber(mode) && comment == NoComment && 0 <= top < |nodes| && p <= |text|
      requires NumberStep(text, comments, mode, p) == Some((m, q))
      requires InNumber(m) || (m.Closing? && (m.v.Int? || m.v.Double?))
      requires n == NumberResult(m)
      requires NumberFlags(fl, digits, m)
      requires Inv(p)
      modifies `nodes, `flags, `numDigits, `mode
      ensures Inv(q) && mode == m
    {
      hide Good, Resume, NumberStep, FlagsAgree;
      ghost var s := Snap();
      nodes := nodes[top := n];
      flags := fl;
      numDigits := digits;
      mode := m;
      SetNumberOk(s, m, fl, digits, p, q, n);
      assert Snap() == Numbering(s, m, n, fl, digits);
    }

    ghost function NumberResult(m: Mode): Node
      reads this
      requires InNumber(m) || m.Closing?
    {
      if InNumber(m) then NumberNode(m, TopIndex(stack)) else Head(false, m.v, TopIndex(stack), StackSize(stack))
    }

    /** The flags that mode m asks for. */
    static ghost predicate NumberFlags(fl: Flags, digits: nat, m: Mode) {
      && fl.next == m.Closing? && !fl.seekValue && !fl.inString && !fl.done && !fl.lineComment && !fl.blockComment
      && !fl.escaped && !fl.needColon && !fl.needComma
      && (m.InInteger? ==> !fl.e && !fl.eGotSign && fl.negative == m.neg && fl.zero == m.zero && digits == m.digits)
      && (m.InFraction? ==> !fl.e && !fl.eGotSign && digits == m.digits)
      && (m.InExponent? ==> fl.e && fl.eGotSign == m.gotSign && digits == m.digits)
    }

    lemma SetNumberOk(s: State, m: Mode, fl: Flags, digits: nat, p: nat, q: nat, n: Node)
      requires Good(text, comments, s, p) && InNumber(s.mode) && s.comment == NoComment && 0 <= s.top < |s.nodes|
      requires NumberStep(text, comments, s.mode, p) == Some((m, q))
      requires InNumber(m) || (m.Closing? && (m.v.Int? || m.v.Double?))
      requires n == if InNumber(m) then NumberNode(m, TopIndex(s.stack))
                    else Head(false, m.v, TopIndex(s.stack), StackSize(s.stack))
      requires NumberFlags(fl, digits, m)
      ensures Good(text, comments, Numbering(s, m, n, fl, digits), q)
    {
      hide NodesAgree, PointersAgree, Resume, NumberStep, Head, NumberNode, TopIndex, StackSize;
      NumberStepResume(text, comments, false, s.stack, s.mode, p);
      NumberingOk(text, comments, s, p, m, n, fl, digits, q);
    }

    /** What the node, the flags and the mode of a number have in common. */
    lemma NumberFacts(s: State, p: nat)
      requires Good(text, comments, s, p) && InNumber(s.mode)
      ensures s.firstPass && s.comment == NoComment && 0 <= s.top < |s.nodes| && p <= |text|
      ensures s.nodes[s.top] == NumberNode(s.mode, TopIndex(s.stack))
      ensures NumberFlags(s.flags, s.numDigits, s.mode)
      ensures match NumberStep(text, comments, s.mode, p)
              case None => Document(text, comments).None?
              case Some(r) =>
                && (r.1 == p || r.1 == p + 1 <= |text|) && (InNumber(r.0) || r.0.Closing?)
                && (r.1 == p ==> Rank(NoComment, r.0) < Rank(NoComment, s.mode) || r.0.Closing?)
    {
      hide NodesAgree, PointersAgree, Resume, NumberStep;
      NumberTop(text, comments, s, p);
      NumberStepResume(text, comments, false, s.stack, s.mode, p);
    }

    // ----------------------------------------------------------------- objects

    /** The opening quote of a name, which goes to the object's own buffer. */
    method OpenName()
      requires mode == InObject(false) && comment == NoComment && !reproc && ptr >= 0 && At(text, ptr) == '"'
      requires Inv(ptr)
      modifies `flags, `stringBase, `stringLength, `mode
      ensures mode.InString? && Inv(ptr + 1)
    {
      hide Good;
      ghost var s := Snap();
      TopKind(text, comments, s, ptr);
      flags := flags.(inString := true);
      stringBase, stringLength := nodes[top].objectMem, 0;
      NameOpenedOk(text, comments, s, ptr);
      mode := InString(true, false, "");
      assert Snap() == NameOpened(s);
    }

    /** In an object, where a name, a comma or the closing brace is due. */
    method ObjectSection(b: char) returns (f: Flow)
      requires mode.InObject? && comment == NoComment && !reproc && ptr >= 0 && b == At(text, ptr)
      requires !(comments && b == '/')
      requires Inv(ptr)
      modifies this
      ensures firstPass == old(firstPass) && plan == old(plan)
      ensures Achieved(f, old(ptr), old(Rank(comment, mode)))
    {
      hide Good, Document, Emit, Chain;
      ghost var s, p := Snap(), ptr;
      OuterFlags(s, p);
      TopKind(text, comments, s, p);
      if IsSpace(b) {
        SpaceOk(text, comments, s, p);
        return Continue;
      }
      match b {
        case '"' =>
          if flags.needComma {
            ObjectFails(text, comments, s, p);
            return Failed;
          }
          OpenName();
          return Continue;
        case '}' =>
          Close();
          return FallThrough;
        case ',' =>
          if flags.needComma {
            flags := flags.(needComma := false, needColon := false);
            SeparatedOk(text, comments, s, p);
            mode := InObject(false);
            assert Snap() == Separated(s);
            return Continue;
          }
          ObjectFails(text, comments, s, p);
          return Failed;
        case _ =>
          ObjectFails(text, comments, s, p);
          return Failed;
      }
    }

    // -------------------------------------------------------------- whole passes

    /** Writes the value of the entry in slot `length`, within the buffer. */
    static function AddValue(n: Node, value: int): Node
      requires |n.values| == n.length < n.capacity
    {
      n.(values := n.values + [value])
    }

    /** Hands a complete value to its container. */
    method HandOver(ghost p: int) returns (f: Flow)
      requires mode.Closing? && comment == NoComment && !reproc
      requires Inv(p)
      modifies this
      ensures firstPass == old(firstPass) && plan == old(plan) && ptr == old(ptr) && !reproc && f in {Continue, Failed}
      ensures f == Failed ==> Document(text, comments).None?
      ensures f == Continue ==>
                comment == NoComment && !mode.Closing? && mode != AtValue && Rank(comment, mode) <= 2 && Inv(p)
    {
      hide Good, Document, TopIndex, FrameNode, Emit, Chain;
      ghost var s := Snap();
      Bounds(s, p);
      HandedReads(text, comments, s, p);
      NoFrameIndex(stack);
      var parent := nodes[top].parent;
      if parent < 0 {
        flags := flags.(next := false, needComma := true, done := true);
        HandedOk(text, comments, s, p);
        mode := Finished(mode.v);
        assert Snap() == Handed(s);
        return Continue;
      }
      if !firstPass {
        RoomForValue(text, comments, s, p);
      }
      if nodes[parent].length + 1 > LENGTH_MAX {
        TooLong(text, comments, s, p);
        return Failed;
      }
      AddToParent(parent, p);
      return Continue;
    }

    /** Makes the complete value the next one of its container. */
    method AddToParent(parent: int, ghost p: nat)
      requires mode.Closing? && comment == NoComment && !reproc && stack != []
      requires parent == TopIndex(stack) && 0 <= parent < |nodes| && |stack[|stack| - 1].done| < LENGTH_MAX
      requires !firstPass ==> |nodes[parent].values| == nodes[parent].length < nodes[parent].capacity
      requires Inv(p)
      modifies `flags, `nodes, `top, `stack, `mode
      ensures !mode.Closing? && mode != AtValue && Rank(comment, mode) <= 2 && Inv(p)
    {
      hide Good, TopIndex, FrameNode, Rank, StackNodes, Offsets, Handed;
      ghost var s := Snap();
      HandedReads(text, comments, s, p);
      HandedFlags(s, p);
      HandedRank(s);
      HandedOk(text, comments, s, p);
      var n := nodes[parent];
      AskForComma(n.kind == KArr);
      if !firstPass {
        n := AddValue(n, top);
      }
      nodes := nodes[parent := n.(length := n.length + 1)];
      top := parent;
      HandedIs(s, nodes, flags);
      stack, mode := Handed(s).stack, Handed(s).mode;
    }

    /** A comma or the end of the container comes next; arrays look for a value behind it. */
    method AskForComma(isArray: bool)
      requires !flags.seekValue
      modifies `flags
      ensures flags == old(flags).(next := false, needComma := true, seekValue := isArray)
    {
      flags := flags.(next := false, needComma := true);
      if isArray {
        flags := flags.(seekValue := true);
      }
    }

    /** What handing over changes in memory. */
    lemma HandedIs(s: State, nodes: seq<Node>, flags: Flags)
      requires s.mode.Closing? && s.stack != [] && 0 <= TopIndex(s.stack) < |s.nodes|
      requires nodes == s.nodes[TopIndex(s.stack) := GrownNode(!s.firstPass, s.nodes[TopIndex(s.stack)], s.top)]
      requires flags == s.flags.(next := false, needComma := true, seekValue := s.stack[|s.stack| - 1].FArr?)
      ensures Handed(s)
           == s.(nodes := nodes, flags := flags, top := TopIndex(s.stack), stack := Handed(s).stack,
                 mode := Handed(s).mode)
      ensures !Handed(s).mode.Closing? && Handed(s).mode != AtValue
    {
    }

    lemma NoFrameIndex(stack: seq<Frame>)
      ensures TopIndex(stack) < 0 <==> stack == []
    {
    }

    lemma HandedRank(s: State)
      requires s.mode.Closing? && s.stack != []
      ensures Rank(NoComment, Handed(s).mode) <= 2
    {
    }

    lemma HandedFlags(s: State, p: int)
      requires s.mode.Closing? && Good(text, comments, s, p)
      ensures !s.flags.seekValue
    {
      hide NodesAgree, PointersAgree, ResumeAfter, PlanAgrees;
    }

    /** The loop body. */
    method Step() returns (f: Flow)
      requires !reproc && !mode.Closing? && mode != AtValue
      requires Inv(ptr)
      modifies this
      ensures firstPass == old(firstPass) && plan == old(plan) && f != FallThrough
      ensures Achieved(f, old(ptr), old(Rank(comment, mode)))
    {
      hide Good, Document, Emit, Chain;
      Bounds(Snap(), ptr);
      var b := if ptr == |text| then NUL else text[ptr];
      if flags.inString {
        f := StringSection(b);
      } else {
        f := OuterSections(b);
      }
      if f != FallThrough {
        return;
      }
      if reproc {
        reproc := false;
        ptr := ptr - 1;
      }
      NextFlag(Snap(), ptr + 1);
      if flags.next {
        f := HandOver(ptr + 1);
      } else {
        f := Continue;
      }
    }

    /** The sections of the loop body outside strings. */
    method OuterSections(b: char) returns (f: Flow)
      requires !reproc && !mode.Closing? && mode != AtValue && !mode.InString? && 0 <= ptr && b == At(text, ptr)
      requires Inv(ptr)
      modifies this
      ensures firstPass == old(firstPass) && plan == old(plan)
      ensures Achieved(f, old(ptr), old(Rank(comment, mode)))
    {
      hide Good, Document, Emit, Chain;
      OuterFlags(Snap(), ptr);
      if comments {
        if flags.lineComment || flags.blockComment {
          f := CommentSection(b);
          return;
        } else if b == '/' {
          f := SlashSection();
          return;
        }
      }
      if flags.done {
        f := DoneSection(b);
        return;
      }
      if flags.seekValue {
        f := SeekSection(b);
        return;
      }
      TopKind(text, comments, Snap(), ptr);
      if nodes[top].kind == KObj {
        f := ObjectSection(b);
      } else {
        f := NumberSection(b);
      }
    }

    lemma Bounds(s: State, p: int)
      requires Good(text, comments, s, p)
      ensures 0 <= p <= |text| && s.flags.inString == s.mode.InString?
      ensures s.mode.InString? ==> s.comment == NoComment
    {
      hide NodesAgree, PointersAgree, ResumeAfter, PlanAgrees;
    }

    lemma NextFlag(s: State, p: int)
      requires Good(text, comments, s, p)
      ensures s.flags.next == s.mode.Closing?
    {
      hide NodesAgree, PointersAgree, ResumeAfter, PlanAgrees;
    }

    /** The state before the first character of a pass. */
    ghost predicate Start()
      reads this
    {
      && ptr == 0 && top == -1 && root == -1 && !reproc
      && flags == Flags(false, false, true, false, false, false, false, false, false, false, false, false, false)
      && stack == [] && mode == Seek(false, false) && comment == NoComment
      && if firstPass then nodes == [] && nextAlloc == [] && alloc == -1 && plan == []
         else Document(text, comments).Some? && nodes == plan == Emit(false, Document(text, comments).value, -1, 0)
              && |nextAlloc| == |nodes| && Chain(nextAlloc) && alloc == 0
    }

    lemma StartOk()
      requires Start()
      ensures Inv(0)
    {
      hide Value, Emit, Skip;
      NoFrames(!firstPass, plan);
      var s := Snap();
      assert Written(!firstPass, mode, stack, plan) == [];
      assert [] + plan[0..] == plan;
      assert NodesAgree(s) && PointersAgree(s, 0);
      assert Resume(text, comments, !firstPass, [], mode, 0) == Document(text, comments);
    }

    /** One pass over the text. */
    method RunPass() returns (ok: bool)
      requires Start()
      modifies this
      ensures firstPass == old(firstPass)
      ensures ok == Document(text, comments).Some?
      ensures ok ==> nodes == Emit(!firstPass, Document(text, comments).value, -1, 0)
      ensures ok ==> Chain(nextAlloc) && |nextAlloc| == |nodes| && root == 0
    {
      hide Good, Document, Emit, Chain;
      StartOk();
      while true
        invariant Inv(ptr) && !reproc && !mode.Closing? && mode != AtValue && firstPass == old(firstPass)
        decreases |text| - ptr, Rank(comment, mode)
      {
        Bounds(Snap(), ptr);
        var f := Step();
        if f == Failed {
          return false;
        }
        if f == Break {
          return true;
        }
        ptr := ptr + 1;
        Bounds(Snap(), ptr);
      }
    }

    /** Both passes. The parser accepts the grammar's documents and no other text, and
        leaves the nodes of the grammar's tree, with every buffer exactly full. */
    method Parse() returns (ok: bool)
      modifies this
      ensures ok == Document(text, comments).Some?
      ensures ok ==> nodes == Emit(true, Document(text, comments).value, -1, 0) && root == 0
    {
      hide Document, Emit, Chain;
      firstPass := true;
      nodes, nextAlloc, alloc, plan := [], [], -1, [];
      Reset();
      ok := RunPass();
      if !ok {
        return;
      }
      alloc := root;
      plan := nodes;
      firstPass := false;
      Reset();
      ok := RunPass();
    }

    method Reset()
      modifies `ptr, `top, `root, `reproc, `flags, `stack, `mode, `comment
      ensures ptr == 0 && top == -1 && root == -1 && !reproc
      ensures flags == Flags(false, false, true, false, false, false, false, false, false, false, false, false, false)
      ensures stack == [] && mode == Seek(false, false) && comment == NoComment
    {
      ptr, top, root, reproc := 0, -1, -1, false;
      flags := Flags(false, false, true, false, false, false, false, false, false, false, false, false, false);
      stack, mode, comment := [], Seek(false, false), NoComment;
    }
  }
}
