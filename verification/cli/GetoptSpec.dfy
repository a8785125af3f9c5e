/** What one call of getopt decodes, and what a whole run reads, without moving anything:
    the arguments are read from left to right in their original order. */
module GetoptSpec {
  import opened Wrappers

  datatype LongOption = LongOption(name: string, hasArg: int, hasFlag: bool, val: int)

  datatype Ordering = RequireOrder | Permute | ReturnInOrder

  /** The caller's arguments; `longopts` is None for plain getopt. `posix` tells whether
      POSIXLY_CORRECT is in the environment. */
  datatype Spec = Spec(optstring: string, longopts: Option<seq<LongOption>>, longOnly: bool, posix: bool) {
    function Mode(): Ordering {
      if optstring != "" && optstring[0] == '-' then ReturnInOrder
      else if (optstring != "" && optstring[0] == '+') || posix then RequireOrder
      else Permute
    }

    /** The option string of the first call, without the character that sets the mode. */
    function FirstOptions(): string {
      if optstring != "" && optstring[0] in "-+" then optstring[1..] else optstring
    }
  }

  /** What a call tells the caller: its result, optarg, a changed optopt, the index of a
      long option and the value stored through its flag pointer. */
  datatype Answer = Answer(code: int, optarg: Option<string>, optopt: Option<char>, longind: Option<nat>,
                           flag: Option<int>)

  const EOF := -1
  const NON_OPTION := 1
  const BAD_OPTION := 0

  function Plain(code: int): Answer {
    Answer(code, None, None, None, None)
  }

  // --------------------------------------------------------------- long options

  datatype Match = Missing | Ambiguous | Found(index: nat)

  /** An exact name wins over abbreviations, the first one if there are several; an
      abbreviation must fit one name only. */
  ghost predicate IsMatch(opts: seq<LongOption>, name: string, m: Match) {
    match m
    case Missing => forall i | 0 <= i < |opts| :: !(name <= opts[i].name)
    case Ambiguous =>
      && (exists i, j :: 0 <= i < j < |opts| && name <= opts[i].name && name <= opts[j].name)
      && (forall i | 0 <= i < |opts| :: opts[i].name != name)
    case Found(k) =>
      && k < |opts| && name <= opts[k].name
      && (if opts[k].name == name then forall i | 0 <= i < k :: opts[i].name != name
          else forall i | 0 <= i < |opts| && name <= opts[i].name :: i == k)
  }

  lemma MatchUnique(opts: seq<LongOption>, name: string, m: Match, m': Match)
    requires IsMatch(opts, name, m) && IsMatch(opts, name, m')
    ensures m == m'
  {
    if m.Found? && m'.Found? {
      assert opts[m.index].name == name <==> opts[m'.index].name == name;
    }
  }

  lemma {:induction false} MatchExists(opts: seq<LongOption>, name: string) returns (m: Match)
    ensures IsMatch(opts, name, m)
  {
    if opts == [] {
      m := Missing;
    } else {
      var k := |opts| - 1;
      var before := MatchExists(opts[..k], name);
      assert forall i | 0 <= i < k :: opts[..k][i] == opts[i];
      if before.Found? && opts[before.index].name == name {
        m := before;
      } else if opts[k].name == name {
        m := Found(k);
      } else if !(name <= opts[k].name) {
        m := before;
      } else {
        m := if before.Missing? then Found(k) else Ambiguous;
        if before.Found? {
          assert name <= opts[before.index].name && before.index < k;
        }
      }
    }
  }

  ghost function LongMatch(opts: seq<LongOption>, name: string): (m: Match)
    ensures IsMatch(opts, name, m)
  {
    assert exists m :: IsMatch(opts, name, m) by {
      var m := MatchExists(opts, name);
    }
    var m :| IsMatch(opts, name, m);
    m
  }

  // ------------------------------------------------------------------- decoding

  /** First position of c, or the length. */
  function IndexOf(s: string, c: char): (r: nat)
    ensures r <= |s| && c !in s[..r] && (r < |s| ==> s[r] == c)
  {
    if s == [] || s[0] == c then 0 else 1 + IndexOf(s[1..], c)
  }

  /** An option element: more than a dash, and starting with one. */
  predicate IsOption(arg: string) {
    |arg| >= 2 && arg[0] == '-'
  }

  /** Answer, number of elements done with, and the characters left in the element. */
  datatype Decoded = Decoded(answer: Answer, used: nat, next: string)

  /** The result for a missing argument. */
  function MissingArgument(opts: string): int {
    if opts != [] && opts[0] == ':' then ':' as int else BAD_OPTION
  }

  /** An option letter, with its argument if it takes one. */
  function DecodeShort(opts: string, args: seq<string>, next: string): Decoded
    requires args != [] && next != ""
  {
    var c, rest := next[0], next[1..];
    var i := IndexOf(opts, c);
    var done := if rest == "" then 1 else 0;
    if i == |opts| || c == ':' then
      Decoded(Plain(BAD_OPTION).(optopt := Some(c)), done, rest)
    else if |opts| <= i + 1 || opts[i + 1] != ':' then
      Decoded(Plain(c as int), done, rest)
    else if rest != "" then
      Decoded(Plain(c as int).(optarg := Some(rest)), 1, "")
    else if i + 2 < |opts| && opts[i + 2] == ':' then
      Decoded(Plain(c as int), 1, "")
    else if |args| == 1 then
      Decoded(Plain(MissingArgument(opts)).(optopt := Some(c)), 1, "")
    else
      Decoded(Plain(c as int).(optarg := Some(args[1])), 2, "")
  }

  /** Long option number k, when `rest` follows its name in the element. */
  function DecodeFound(opts: string, long: LongOption, k: nat, args: seq<string>, rest: string): Decoded
    requires args != []
  {
    var found := Answer(if long.hasFlag then 0 else long.val, None, None, Some(k),
                        if long.hasFlag then Some(long.val) else None);
    if rest != "" then
      Decoded(if long.hasArg != 0 then found.(optarg := Some(rest[1..])) else Plain(BAD_OPTION), 1, "")
    else if long.hasArg == 1 then
      if |args| > 1 then Decoded(found.(optarg := Some(args[1])), 2, "")
      else Decoded(Plain(MissingArgument(opts)), 1, "")
    else
      Decoded(found, 1, "")
  }

  /** The next option, `args` being the arguments from its element on. */
  ghost function Decode(spec: Spec, opts: string, args: seq<string>, next: string): Decoded
    requires args != [] && next != "" && IsOption(args[0])
  {
    if spec.longopts.Some? && (args[0][1] == '-' || spec.longOnly) then
      var length := IndexOf(next, '=');
      match LongMatch(spec.longopts.value, next[..length])
      case Ambiguous => Decoded(Plain(BAD_OPTION), 1, "")
      case Found(k) => DecodeFound(opts, spec.longopts.value[k], k, args, next[length..])
      case Missing =>
        if !spec.longOnly || args[0][1] == '-' || next[0] !in opts then Decoded(Plain(BAD_OPTION), 1, "")
        else DecodeShort(opts, args, next)
    else
      DecodeShort(opts, args, next)
  }

  /** Where decoding of an element begins. */
  function Opening(spec: Spec, arg: string): (r: string)
    requires IsOption(arg) && arg != "--"
    ensures r != "" && |r| < |arg|
  {
    if spec.longopts.Some? && arg[1] == '-' then arg[2..] else arg[1..]
  }

  // ------------------------------------------------------------------ whole runs

  /** Number of leading elements that are no options. */
  function Skipped(args: seq<string>): (r: nat)
    ensures r <= |args|
    ensures forall i | 0 <= i < r :: !IsOption(args[i])
    ensures r < |args| ==> IsOption(args[r])
  {
    if args == [] || IsOption(args[0]) then 0 else 1 + Skipped(args[1..])
  }

  function Repeat(b: bool, n: nat): seq<bool> {
    seq(n, _ => b)
  }

  /** One call: the arguments from k on are unread, except that `next` is left of a
      begun element. The result has the new position and, for each element passed, whether
      it belongs to an option. `over` tells that the run has ended. */
  datatype Call = Call(answer: Answer, k: nat, next: string, tags: seq<bool>, over: bool)

  ghost function OneCall(spec: Spec, opts: string, orig: seq<string>, k: nat, next: string): (r: Call)
    requires k <= |orig| && (next != "" ==> k < |orig| && IsOption(orig[k]))
  {
    if next != "" then
      Advance(spec, opts, orig, k, next, [])
    else
      var skipped := if spec.Mode() == Permute then Skipped(orig[k..]) else 0;
      var j := k + skipped;
      var rest := |orig| - j;
      if j == |orig| then
        Call(Plain(EOF), |orig|, "", Repeat(false, skipped), true)
      else if orig[j] == "--" then
        Call(Plain(EOF), |orig|, "", Repeat(false, skipped) + [true] + Repeat(false, rest - 1), true)
      else if !IsOption(orig[j]) then
        if spec.Mode() == RequireOrder then Call(Plain(EOF), |orig|, "", Repeat(false, rest), true)
        else Call(Plain(NON_OPTION).(optarg := Some(orig[j])), j + 1, "", [true], false)
      else
        Advance(spec, opts, orig, j, Opening(spec, orig[j]), Repeat(false, skipped))
  }

  ghost function Advance(spec: Spec, opts: string, orig: seq<string>, j: nat, next: string, tags: seq<bool>): (r: Call)
    requires j < |orig| && next != "" && IsOption(orig[j])
  {
    var d := Decode(spec, opts, orig[j..], next);
    Call(d.answer, j + d.used, d.next, tags + Repeat(true, d.used), false)
  }

  /** What is left to read. */
  function Left(orig: seq<string>, k: nat, next: string): nat
    requires k <= |orig|
  {
    if next != "" || k == |orig| then |next| else |orig[k]|
  }

  /** Either the element goes on, or one or two elements are done with. */
  lemma DecodeMoves(spec: Spec, opts: string, args: seq<string>, next: string)
    requires args != [] && next != "" && IsOption(args[0])
    ensures var d := Decode(spec, opts, args, next);
            && d.used <= 2 && d.used <= |args|
            && (d.used == 0 <==> d.next != "") && (d.next == "" || d.next == next[1..])
  {
  }

  /** A call stays within the arguments and makes progress. */
  lemma OneCallMoves(spec: Spec, opts: string, orig: seq<string>, k: nat, next: string)
    requires k <= |orig| && (next != "" ==> k < |orig| && IsOption(orig[k]))
    ensures var c := OneCall(spec, opts, orig, k, next);
            && k <= c.k <= |orig| && |c.tags| == c.k - k
            && (c.next != "" ==> c.k < |orig| && IsOption(orig[c.k]))
            && (!c.over ==> c.k > k || Left(orig, c.k, c.next) < Left(orig, k, next))
            && (c.over ==> c.k == |orig|)
  {
    hide Decode;
    var j := if next == "" && spec.Mode() == Permute then k + Skipped(orig[k..]) else k;
    if j < |orig| && IsOption(orig[j]) && (next != "" || orig[j] != "--") {
      DecodeMoves(spec, opts, orig[j..], if next != "" then next else Opening(spec, orig[j]));
    }
  }

  /** The answers of a run up to EOF, and the tags of the arguments from k on. `opts` is
      the option string of the next call: the first call skips a leading mode character. */
  ghost function Run(spec: Spec, opts: string, orig: seq<string>, k: nat, next: string): (r: (seq<Answer>, seq<bool>))
    requires k <= |orig| && (next != "" ==> k < |orig| && IsOption(orig[k]))
    ensures |r.1| == |orig| - k
    decreases |orig| - k, Left(orig, k, next)
  {
    OneCallMoves(spec, opts, orig, k, next);
    var c := OneCall(spec, opts, orig, k, next);
    if c.over then ([c.answer], c.tags)
    else
      var rest := Run(spec, spec.optstring, orig, c.k, c.next);
      ([c.answer] + rest.0, c.tags + rest.1)
  }

  /** No long option returns what stands for the end. */
  predicate EofIsClear(spec: Spec) {
    spec.longopts.Some? ==> forall i | 0 <= i < |spec.longopts.value| :: spec.longopts.value[i].val != EOF
  }

  lemma EofEnds(spec: Spec, opts: string, orig: seq<string>, k: nat, next: string)
    requires k <= |orig| && (next != "" ==> k < |orig| && IsOption(orig[k])) && EofIsClear(spec)
    ensures var c := OneCall(spec, opts, orig, k, next); c.over <==> c.answer.code == EOF
  {
    hide LongMatch;
    var j := if next == "" && spec.Mode() == Permute then k + Skipped(orig[k..]) else k;
    if j < |orig| && IsOption(orig[j]) && (next != "" || orig[j] != "--") {
      DecodeNoEof(spec, opts, orig[j..], if next != "" then next else Opening(spec, orig[j]));
    }
  }

  lemma DecodeNoEof(spec: Spec, opts: string, args: seq<string>, next: string)
    requires args != [] && next != "" && IsOption(args[0]) && EofIsClear(spec)
    ensures Decode(spec, opts, args, next).answer.code != EOF
  {
  }

  /** The elements with tag b, in order. */
  function Pick(args: seq<string>, tags: seq<bool>, b: bool): seq<string>
    requires |args| == |tags|
  {
    if args == [] then []
    else
      var k := |args| - 1;
      Pick(args[..k], tags[..k], b) + if tags[k] == b then [args[k]] else []
  }

  lemma {:induction false} PickAppend(args: seq<string>, tags: seq<bool>, args': seq<string>, tags': seq<bool>, b: bool)
    requires |args| == |tags| && |args'| == |tags'|
    ensures Pick(args + args', tags + tags', b) == Pick(args, tags, b) + Pick(args', tags', b)
    decreases |args'|
  {
    if args' == [] {
      assert args + args' == args && tags + tags' == tags;
    } else {
      var k := |args'| - 1;
      PickAppend(args, tags, args'[..k], tags'[..k], b);
      assert (args + args')[..|args| + k] == args + args'[..k];
      assert (tags + tags')[..|args| + k] == tags + tags'[..k];
    }
  }

  lemma {:induction false} PickAll(args: seq<string>, b: bool)
    ensures Pick(args, Repeat(b, |args|), b) == args
    ensures Pick(args, Repeat(b, |args|), !b) == []
  {
    if args != [] {
      var k := |args| - 1;
      PickAll(args[..k], b);
      assert Repeat(b, |args|)[..k] == Repeat(b, k);
      assert args == args[..k] + [args[k]];
    }
  }

  /** The two picks together are the arguments again. */
  lemma {:induction false} PickPermutes(args: seq<string>, tags: seq<bool>)
    requires |args| == |tags|
    ensures multiset(Pick(args, tags, true)) + multiset(Pick(args, tags, false)) == multiset(args)
  {
    if args != [] {
      var k := |args| - 1;
      var init, last := args[..k], [args[k]];
      PickPermutes(init, tags[..k]);
      var t, f := Pick(init, tags[..k], true), Pick(init, tags[..k], false);
      assert args == init + last;
      if tags[k] {
        assert Pick(args, tags, false) == f;
        assert multiset(t + last) == multiset(t) + multiset(last);
      } else {
        assert Pick(args, tags, true) == t;
        assert multiset(f + last) == multiset(f) + multiset(last);
      }
    }
  }
}
