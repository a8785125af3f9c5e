/** Command lines as a user means them, rendered as arguments, and what a run reads from them. */
module GetoptInverse {
  import opened Wrappers
  import opened GetoptSpec
  import opened GetoptMode
  import opened Getopt

  // ------------------------------------------------------------- option strings

  datatype Kind = NoArgument | NeedsArgument | MayHaveArgument

  /** The letters that a program takes, each once. */
  datatype Letters = NoLetters | Letter(c: char, kind: Kind, more: Letters)

  /** A letter, and one colon if it needs an argument, two if it may have one. */
  function LettersText(letters: Letters): string {
    match letters
    case NoLetters => ""
    case Letter(c, kind, more) => [c] + (Colons(kind) + LettersText(more))
  }

  function Colons(kind: Kind): string {
    match kind
    case NoArgument => ""
    case NeedsArgument => ":"
    case MayHaveArgument => "::"
  }

  function KindOf(letters: Letters, c: char): Option<Kind> {
    if letters.NoLetters? then None
    else if letters.c == c then Some(letters.kind)
    else KindOf(letters.more, c)
  }

  predicate LettersOk(letters: Letters) {
    letters.Letter? ==> letters.c != ':' && KindOf(letters.more, letters.c).None? && LettersOk(letters.more)
  }

  /** The option string: a mode, a colon that asks for another answer, and the letters. */
  predicate TakesLetters(spec: Spec, letters: Letters) {
    && LettersOk(letters)
    && (TakesAs(spec, LettersText(letters)) || TakesAs(spec, ":" + LettersText(letters)))
  }

  predicate TakesAs(spec: Spec, text: string) {
    || spec.optstring == "-" + text || spec.optstring == "+" + text
    || (spec.optstring == text && (text == "" || (text[0] != '-' && text[0] != '+')))
  }

  // --------------------------------------------------------------- command lines

  /** The end of a cluster of letters. */
  datatype Last =
    | NoLast
    | Attached(c: char, value: string)
    | Separate(c: char, value: string)
    | Without(c: char)
    | Lacking(c: char)

  /** A long option is number k in the table, called by its name or by an abbreviation. */
  datatype Element =
    | Cluster(flags: string, last: Last)
    | Long(name: string, k: nat)
    | LongEquals(name: string, k: nat, value: string)
    | LongSeparate(name: string, k: nat, value: string)
    | LongLacking(name: string, k: nat)
    | BadLong(name: string, equals: string)
    | Operand(arg: string)

  /** Elements up to the end, to a double dash, or to the first operand when that ends them. */
  datatype Line =
    | End
    | Marker(rest: seq<string>)
    | Stop(rest: seq<string>)
    | More(first: Element, more: Line)

  function LastText(last: Last): string {
    match last
    case NoLast => ""
    case Attached(c, value) => [c] + value
    case Separate(c, _) => [c]
    case Without(c) => [c]
    case Lacking(c) => [c]
  }

  function Rendered(spec: Spec, e: Element): seq<string>
    requires ElementShape(spec, e)
  {
    match e
    case Cluster(flags, last) =>
      ["-" + (flags + LastText(last))] + if last.Separate? then [last.value] else []
    case Long(name, _) => ["--" + name]
    case LongEquals(name, _, value) => ["--" + (name + ("=" + value))]
    case LongSeparate(name, _, value) => ["--" + name, value]
    case LongLacking(name, _) => ["--" + name]
    case BadLong(name, equals) => ["--" + (name + equals)]
    case Operand(arg) => [arg]
  }

  predicate ElementShape(spec: Spec, e: Element) {
    e.Long? || e.LongEquals? || e.LongSeparate? || e.LongLacking? ==> spec.longopts.Some? && e.k < |spec.longopts.value|
  }

  function Arguments(spec: Spec, line: Line): seq<string>
    requires LineShape(spec, line)
  {
    match line
    case End => []
    case Marker(rest) => ["--"] + rest
    case Stop(rest) => rest
    case More(first, more) => Rendered(spec, first) + Arguments(spec, more)
  }

  predicate LineShape(spec: Spec, line: Line) {
    line.More? ==> ElementShape(spec, line.first) && LineShape(spec, line.more)
  }

  /** A dash is not what an operand begins with, except alone. */
  predicate IsOperand(arg: string) {
    arg == "" || arg == "-" || arg[0] != '-'
  }

  /** Letters in front of the last one take no argument, or are not known. */
  predicate FlagsOk(letters: Letters, flags: string) {
    forall i | 0 <= i < |flags| :: KindOf(letters, flags[i]) in {None, Some(NoArgument)}
  }

  predicate LastOk(letters: Letters, last: Last) {
    match last
    case NoLast => true
    case Attached(c, value) => value != "" && KindOf(letters, c) in {Some(NeedsArgument), Some(MayHaveArgument)}
    case Separate(c, _) => KindOf(letters, c) == Some(NeedsArgument)
    case Without(c) => KindOf(letters, c) == Some(MayHaveArgument)
    case Lacking(c) => KindOf(letters, c) == Some(NeedsArgument)
  }

  /** The name of a long option, which no option before it has, or an abbreviation of no other. */
  predicate Calls(opts: seq<LongOption>, name: string, k: nat)
    requires k < |opts|
  {
    if name == opts[k].name then forall i | 0 <= i < k :: opts[i].name != name
    else name <= opts[k].name && forall i | 0 <= i < |opts| && i != k :: !(name <= opts[i].name)
  }

  /** The name of no long option, and an abbreviation of none or of several. */
  predicate CallsNone(opts: seq<LongOption>, name: string) {
    || (forall i | 0 <= i < |opts| :: !(name <= opts[i].name))
    || ((exists i, j :: 0 <= i < j < |opts| && name <= opts[i].name && name <= opts[j].name)
        && forall i | 0 <= i < |opts| :: opts[i].name != name)
  }

  /** The option is not known, not told from others, or given an argument that it does not take. */
  predicate IsBad(opts: seq<LongOption>, name: string, equals: string) {
    || CallsNone(opts, name)
    || (equals != "" && exists k :: 0 <= k < |opts| && Calls(opts, name, k) && opts[k].hasArg == 0)
  }

  /** An argument is needed, and the line ends. */
  predicate Lacks(e: Element) {
    e.LongLacking? || (e.Cluster? && e.last.Lacking?)
  }

  /** The option string asks to be told of a missing argument. */
  predicate Asks(spec: Spec) {
    var s := spec.optstring;
    (|s| > 0 && s[0] == ':') || (|s| > 1 && (s[0] == '-' || s[0] == '+') && s[1] == ':')
  }

  function LackCode(spec: Spec): int {
    if Asks(spec) then ':' as int else 0
  }

  ghost predicate ElementOk(spec: Spec, letters: Letters, e: Element) {
    match e
    case Cluster(flags, last) =>
      var text := flags + LastText(last);
      && FlagsOk(letters, flags) && LastOk(letters, last) && text != "" && text[0] != '-'
      && (spec.longOnly ==> spec.longopts.None?)
    case Operand(arg) => IsOperand(arg)
    case Long(name, k) => name != "" && Takes(spec, name, k) && spec.longopts.value[k].hasArg != 1
    case LongEquals(name, k, _) => Takes(spec, name, k) && spec.longopts.value[k].hasArg != 0
    case LongSeparate(name, k, _) => name != "" && Takes(spec, name, k) && spec.longopts.value[k].hasArg == 1
    case LongLacking(name, k) => name != "" && Takes(spec, name, k) && spec.longopts.value[k].hasArg == 1
    case BadLong(name, equals) =>
      && spec.longopts.Some? && '=' !in name && name + equals != "" && (equals == "" || equals[0] == '=')
      && IsBad(spec.longopts.value, name, equals)
  }

  predicate Takes(spec: Spec, name: string, k: nat) {
    spec.longopts.Some? && k < |spec.longopts.value| && '=' !in name && Calls(spec.longopts.value, name, k)
  }

  ghost predicate LineOk(spec: Spec, letters: Letters, line: Line) {
    match line
    case End => true
    case Marker(_) => true
    case Stop(rest) => spec.Mode() == RequireOrder && rest != [] && IsOperand(rest[0])
    case More(first, more) =>
      && ElementOk(spec, letters, first) && LineOk(spec, letters, more)
      && (first.Operand? ==> spec.Mode() != RequireOrder) && (Lacks(first) ==> more.End?)
  }

  // ------------------------------------------------------------- what is meant by them

  /** A letter that is known, and one that is not. */
  function LetterAnswer(letters: Letters, c: char): Answer {
    if KindOf(letters, c).Some? then Answer(c as int, None, None, None, None)
    else Answer(0, None, Some(c), None, None)
  }

  function FlagAnswers(letters: Letters, flags: string): seq<Answer> {
    if flags == "" then [] else [LetterAnswer(letters, flags[0])] + FlagAnswers(letters, flags[1..])
  }

  function LastAnswer(spec: Spec, last: Last): seq<Answer> {
    match last
    case NoLast => []
    case Attached(c, value) => [Answer(c as int, Some(value), None, None, None)]
    case Separate(c, value) => [Answer(c as int, Some(value), None, None, None)]
    case Without(c) => [Answer(c as int, None, None, None, None)]
    case Lacking(c) => [Answer(LackCode(spec), None, Some(c), None, None)]
  }

  /** A long option with a flag pointer is answered with 0, and its value goes there. */
  function LongAnswer(spec: Spec, k: nat, value: Option<string>): Answer
    requires spec.longopts.Some? && k < |spec.longopts.value|
  {
    var o := spec.longopts.value[k];
    if o.hasFlag then Answer(0, value, None, Some(k), Some(o.val)) else Answer(o.val, value, None, Some(k), None)
  }

  function ElementAnswers(spec: Spec, letters: Letters, e: Element): seq<Answer>
    requires ElementShape(spec, e)
  {
    match e
    case Cluster(flags, last) => FlagAnswers(letters, flags) + LastAnswer(spec, last)
    case Long(_, k) => [LongAnswer(spec, k, None)]
    case LongEquals(_, k, value) => [LongAnswer(spec, k, Some(value))]
    case LongSeparate(_, k, value) => [LongAnswer(spec, k, Some(value))]
    case LongLacking(_, _) => [Answer(LackCode(spec), None, None, None, None)]
    case BadLong(_, _) => [Answer(0, None, None, None, None)]
    case Operand(arg) => if spec.Mode() == Permute then [] else [Answer(1, Some(arg), None, None, None)]
  }

  function LineAnswers(spec: Spec, letters: Letters, line: Line): seq<Answer>
    requires LineShape(spec, line)
  {
    if line.More? then ElementAnswers(spec, letters, line.first) + LineAnswers(spec, letters, line.more)
    else [Answer(-1, None, None, None, None)]
  }

  /** What stands in front of optind at the end: options with their separate arguments, the
      double dash, and operands that were answered. */
  function Read(spec: Spec, line: Line): seq<string>
    requires LineShape(spec, line)
  {
    match line
    case End => []
    case Marker(_) => ["--"]
    case Stop(_) => []
    case More(first, more) => (if IsLeft(spec, first) then [] else Rendered(spec, first)) + Read(spec, more)
  }

  /** What stands from optind on: operands, and everything behind the double dash. */
  function Operands(spec: Spec, line: Line): seq<string>
    requires LineShape(spec, line)
  {
    match line
    case End => []
    case Marker(rest) => rest
    case Stop(rest) => rest
    case More(first, more) => (if IsLeft(spec, first) then Rendered(spec, first) else []) + Operands(spec, more)
  }

  predicate IsLeft(spec: Spec, e: Element) {
    e.Operand? && spec.Mode() == Permute
  }

  // ------------------------------------------------------------- letters are looked up

  lemma InFront(x: string, y: string, c: char)
    requires c !in x
    ensures IndexOf(x + y, c) == |x| + IndexOf(y, c)
    decreases |x|
  {
    if x == "" {
      assert x + y == y;
    } else {
      assert (x + y)[0] == x[0] && (x + y)[1..] == x[1..] + y;
      InFront(x[1..], y, c);
    }
  }

  function LetterFor(kind: Option<Kind>): GetoptMode.Letter {
    match kind
    case None => Unknown
    case Some(NoArgument) => Flag
    case Some(NeedsArgument) => Required
    case Some(MayHaveArgument) => Optional
  }

  /** The colons behind the letter that stands first. */
  lemma FirstLetter(c: char, kind: Kind, rest: string)
    requires c != ':' && (rest == "" || rest[0] != ':')
    ensures LetterOf([c] + (Colons(kind) + rest), c) == LetterFor(Some(kind))
  {
    var s := [c] + (Colons(kind) + rest);
    assert IndexOf(s, c) == 0;
    if kind == NoArgument {
      assert s == [c] + rest;
    } else if kind == NeedsArgument {
      assert s == [c, ':'] + rest;
    } else {
      assert s == [c, ':', ':'] + rest;
    }
  }

  lemma BehindOthers(x: string, s: string, c: char)
    requires c !in x
    ensures LetterOf(x + s, c) == LetterOf(s, c)
  {
    hide IndexOf;
    InFront(x, s, c);
    var i := IndexOf(s, c);
    CharBehind(x, s, i + 1);
    CharBehind(x, s, i + 2);
  }

  lemma CharBehind(x: string, s: string, j: nat)
    ensures |x + s| == |x| + |s| && (j < |s| ==> (x + s)[|x| + j] == s[j])
  {
  }

  lemma {:induction false} LettersLookup(letters: Letters, c: char)
    requires LettersOk(letters)
    ensures LettersText(letters) == "" || LettersText(letters)[0] != ':'
    ensures c != ':' ==> LetterOf(LettersText(letters), c) == LetterFor(KindOf(letters, c))
    ensures KindOf(letters, ':') == None
  {
    hide LetterOf, Colons;
    if letters.NoLetters? {
      NoLetter(c);
    } else {
      var x, rest := [letters.c], LettersText(letters.more);
      LettersLookup(letters.more, c);
      if letters.c == c {
        FirstLetter(c, letters.kind, rest);
      } else {
        OnlyColons(letters.kind, c);
        assert x + (Colons(letters.kind) + rest) == x + Colons(letters.kind) + rest;
        if c != ':' {
          BehindOthers(x + Colons(letters.kind), rest, c);
        }
      }
    }
  }

  lemma NoLetter(c: char)
    ensures LetterOf("", c) == Unknown && LettersText(NoLetters) == ""
  {
  }

  lemma OnlyColons(kind: Kind, c: char)
    ensures c != ':' ==> c !in Colons(kind)
  {
  }

  /** What the first call and, without a mode, all others are given. */
  lemma Lookup(spec: Spec, letters: Letters, c: char)
    requires TakesLetters(spec, letters)
    ensures LetterOf(spec.FirstOptions(), c) == LetterFor(KindOf(letters, c))
  {
    var colon := if TakesAs(spec, LettersText(letters)) then "" else ":";
    var text := colon + LettersText(letters);
    assert "" + LettersText(letters) == LettersText(letters);
    FirstIs(spec, text);
    LettersLookup(letters, c);
    if c == ':' {
      NoColonLetter(text);
    } else {
      BehindOthers(colon, LettersText(letters), c);
    }
  }

  lemma NoColonLetter(text: string)
    ensures LetterOf(text, ':') == Unknown
  {
  }

  lemma FirstIs(spec: Spec, text: string)
    requires TakesAs(spec, text)
    ensures spec.FirstOptions() == text
  {
    assert ("-" + text)[1..] == text && ("+" + text)[1..] == text;
  }

  // ------------------------------------------------------------------ one decoding

  /** A letter without argument. */
  lemma FlagDecoded(opts: string, letters: Letters, args: seq<string>, c: char, rest: string)
    requires args != [] && KindOf(letters, c) in {None, Some(NoArgument)}
    requires LetterOf(opts, c) == LetterFor(KindOf(letters, c))
    ensures DecodeShort(opts, args, [c] + rest) == Decoded(LetterAnswer(letters, c), if rest == "" then 1 else 0, rest)
  {
    assert ([c] + rest)[1..] == rest;
  }

  /** A letter with its argument, or without one that it may have. */
  lemma LastDecoded(spec: Spec, letters: Letters, args: seq<string>, last: Last)
    requires args != [] && last != NoLast && LastOk(letters, last)
    requires LetterOf(spec.FirstOptions(), last.c) == LetterFor(KindOf(letters, last.c))
    requires last.Separate? ==> |args| >= 2 && args[1] == last.value
    requires last.Lacking? ==> |args| == 1
    ensures DecodeShort(spec.FirstOptions(), args, LastText(last))
         == Decoded(LastAnswer(spec, last)[0], if last.Separate? then 2 else 1, "")
  {
    LackIs(spec);
    hide LackCode;
    if last.Attached? {
      assert ([last.c] + last.value)[1..] == last.value;
    }
  }

  lemma LackIs(spec: Spec)
    ensures MissingArgument(spec.FirstOptions()) == LackCode(spec)
  {
  }

  /** The first option of this name, whatever others it abbreviates, or the one it abbreviates. */
  lemma NameFound(opts: seq<LongOption>, name: string, k: nat)
    requires k < |opts| && Calls(opts, name, k)
    ensures LongMatch(opts, name) == Found(k)
  {
    MatchUnique(opts, name, Found(k), LongMatch(opts, name));
  }

  lemma NoneFound(opts: seq<LongOption>, name: string)
    requires CallsNone(opts, name)
    ensures !LongMatch(opts, name).Found?
  {
    var m := LongMatch(opts, name);
  }

  /** The text of a long option: its name, perhaps an equals sign and a value. */
  function LongText(spec: Spec, e: Element): string
    requires ElementShape(spec, e) && !e.Cluster? && !e.Operand?
  {
    e.name + if e.LongEquals? then "=" + e.value else if e.BadLong? then e.equals else ""
  }

  lemma NameEnds(name: string, rest: string)
    requires '=' !in name && (rest == "" || rest[0] == '=')
    ensures IndexOf(name + rest, '=') == |name|
    ensures (name + rest)[..|name|] == name && (name + rest)[|name|..] == rest
  {
    InFront(name, rest, '=');
  }

  lemma LongDecoded(spec: Spec, letters: Letters, args: seq<string>, e: Element)
    requires ElementOk(spec, letters, e) && !e.Cluster? && !e.Operand?
    requires args != [] && IsOption(args[0]) && args[0][1] == '-'
    requires e.LongSeparate? ==> |args| >= 2 && args[1] == e.value
    requires e.LongLacking? ==> |args| == 1
    ensures LongText(spec, e) != ""
    ensures Decode(spec, spec.FirstOptions(), args, LongText(spec, e))
         == Decoded(ElementAnswers(spec, letters, e)[0], if e.LongSeparate? then 2 else 1, "")
  {
    hide DecodeShort, LongMatch, Calls, CallsNone, LackCode;
    LackIs(spec);
    if e.BadLong? {
      BadDecoded(spec, args, e.name, e.equals);
    } else {
      var rest := if e.LongEquals? then "=" + e.value else "";
      NameFound(spec.longopts.value, e.name, e.k);
      NameEnds(e.name, rest);
      if e.LongEquals? {
        assert rest[1..] == e.value;
      }
    }
  }

  lemma BadDecoded(spec: Spec, args: seq<string>, name: string, equals: string)
    requires spec.longopts.Some? && '=' !in name && name + equals != "" && (equals == "" || equals[0] == '=')
    requires IsBad(spec.longopts.value, name, equals) && args != [] && IsOption(args[0]) && args[0][1] == '-'
    ensures Decode(spec, spec.FirstOptions(), args, name + equals) == Decoded(Answer(0, None, None, None, None), 1, "")
  {
    hide DecodeShort, LongMatch, Calls, CallsNone;
    NameEnds(name, equals);
    var opts := spec.longopts.value;
    if CallsNone(opts, name) {
      NoneFound(opts, name);
    } else {
      var k :| 0 <= k < |opts| && Calls(opts, name, k) && opts[k].hasArg == 0;
      NameFound(opts, name, k);
    }
  }

  // --------------------------------------------------------------------- the run

  /** The run as it goes on from position k. */
  ghost predicate Goes(spec: Spec, orig: seq<string>, k: nat, next: string, answers: seq<Answer>, tags: seq<bool>,
                       k': nat)
    requires k <= |orig| && (next != "" ==> k < |orig| && IsOption(orig[k])) && k' <= |orig|
  {
    var more := Documented(spec, orig, k', "");
    Documented(spec, orig, k, next) == (answers + more.0, tags + more.1)
  }

  /** An option element is read from its first letter on. */
  lemma Opened(spec: Spec, orig: seq<string>, k: nat)
    requires k < |orig| && IsOption(orig[k]) && orig[k] != "--"
    ensures Documented(spec, orig, k, "") == Documented(spec, orig, k, Opening(spec, orig[k]))
  {
    hide Decode;
    assert orig[k..][0] == orig[k] && Repeat(false, 0) == [];
    assert OneCall(spec, spec.FirstOptions(), orig, k, "")
           == OneCall(spec, spec.FirstOptions(), orig, k, Opening(spec, orig[k]));
    hide OneCall;
  }

  /** One call inside an element. */
  lemma Decodes(spec: Spec, orig: seq<string>, k: nat, next: string, d: Decoded)
    requires k < |orig| && IsOption(orig[k]) && next != "" && d == Decode(spec, spec.FirstOptions(), orig[k..], next)
    ensures k + d.used <= |orig| && (d.next != "" ==> k + d.used < |orig| && IsOption(orig[k + d.used]))
    ensures var more := Documented(spec, orig, k + d.used, d.next);
            Documented(spec, orig, k, next) == ([d.answer] + more.0, Repeat(true, d.used) + more.1)
  {
    hide OneCall, Decode, Repeat;
    OneCallMoves(spec, spec.FirstOptions(), orig, k, next);
    CallInside(spec, orig, k, next, d);
  }

  lemma CallInside(spec: Spec, orig: seq<string>, k: nat, next: string, d: Decoded)
    requires k < |orig| && IsOption(orig[k]) && next != "" && d == Decode(spec, spec.FirstOptions(), orig[k..], next)
    ensures OneCall(spec, spec.FirstOptions(), orig, k, next)
         == Call(d.answer, k + d.used, d.next, Repeat(true, d.used), false)
  {
    hide Decode;
    assert [] + Repeat(true, d.used) == Repeat(true, d.used);
  }

  /** Letters are looked up in the option string when no long option is tried first. */
  lemma ShortOnes(spec: Spec, args: seq<string>, next: string)
    requires args != [] && IsOption(args[0]) && args[0][1] != '-' && next != ""
    requires (spec.longOnly ==> spec.longopts.None?)
    ensures Decode(spec, spec.FirstOptions(), args, next) == DecodeShort(spec.FirstOptions(), args, next)
  {
    hide DecodeShort;
  }

  /** A cluster is read letter by letter. */
  lemma {:induction false} ClusterRead(spec: Spec, letters: Letters, orig: seq<string>, k: nat, flags: string,
                                       last: Last)
    requires TakesLetters(spec, letters) && FlagsOk(letters, flags) && LastOk(letters, last)
    requires k < |orig| && IsOption(orig[k]) && orig[k][1] != '-' && (spec.longOnly ==> spec.longopts.None?)
    requires flags + LastText(last) != ""
    requires last.Separate? ==> k + 1 < |orig| && orig[k + 1] == last.value
    requires last.Lacking? ==> k + 1 == |orig|
    ensures var n := if last.Separate? then 2 else 1;
            && k + n <= |orig|
            && Goes(spec, orig, k, flags + LastText(last), FlagAnswers(letters, flags) + LastAnswer(spec, last),
                    Repeat(true, n), k + n)
    decreases |flags|
  {
    hide Documented, Decode, DecodeShort, TakesLetters, LetterOf, Repeat, FlagsOk, LastOk;
    var args, next := orig[k..], flags + LastText(last);
    ShortOnes(spec, args, next);
    if flags == "" {
      assert next == LastText(last) && last != NoLast;
      Lookup(spec, letters, last.c);
      LastDecoded(spec, letters, args, last);
      var d := DecodeShort(spec.FirstOptions(), args, next);
      Decodes(spec, orig, k, next, d);
      OneLast(spec, letters, last);
    } else {
      var c, rest := flags[0], flags[1..] + LastText(last);
      CutFlags(letters, flags, LastText(last));
      Lookup(spec, letters, c);
      FlagDecoded(spec.FirstOptions(), letters, args, c, rest);
      var d := DecodeShort(spec.FirstOptions(), args, next);
      Decodes(spec, orig, k, next, d);
      if rest == "" {
        OnlyFlag(spec, letters, flags, last);
      } else {
        ClusterRead(spec, letters, orig, k, flags[1..], last);
        OneMore(spec, letters, orig, k, flags, last, rest);
      }
    }
  }

  lemma OneLast(spec: Spec, letters: Letters, last: Last)
    requires last != NoLast
    ensures FlagAnswers(letters, "") + LastAnswer(spec, last) == [LastAnswer(spec, last)[0]]
  {
  }

  lemma CutFlags(letters: Letters, flags: string, text: string)
    requires flags != "" && FlagsOk(letters, flags)
    ensures flags + text == [flags[0]] + (flags[1..] + text) && FlagsOk(letters, flags[1..])
    ensures KindOf(letters, flags[0]) in {None, Some(NoArgument)}
  {
    assert forall i | 0 <= i < |flags| - 1 :: flags[1..][i] == flags[i + 1];
  }

  lemma OnlyFlag(spec: Spec, letters: Letters, flags: string, last: Last)
    requires flags != "" && flags[1..] + LastText(last) == ""
    ensures last == NoLast && FlagAnswers(letters, flags) + LastAnswer(spec, last) == [LetterAnswer(letters, flags[0])]
  {
    hide LetterAnswer;
    assert FlagAnswers(letters, flags[1..]) == [];
  }

  /** The first of some letters, and then the others. */
  lemma OneMore(spec: Spec, letters: Letters, orig: seq<string>, k: nat, flags: string, last: Last, rest: string)
    requires flags != "" && rest == flags[1..] + LastText(last) && rest != "" && k < |orig| && IsOption(orig[k])
    requires var n := if last.Separate? then 2 else 1;
             && k + n <= |orig|
             && Goes(spec, orig, k, rest, FlagAnswers(letters, flags[1..]) + LastAnswer(spec, last), Repeat(true, n),
                     k + n)
    requires var more := Documented(spec, orig, k, rest);
             Documented(spec, orig, k, flags + LastText(last))
             == ([LetterAnswer(letters, flags[0])] + more.0, Repeat(true, 0) + more.1)
    ensures var n := if last.Separate? then 2 else 1;
            Goes(spec, orig, k, flags + LastText(last), FlagAnswers(letters, flags) + LastAnswer(spec, last),
                 Repeat(true, n), k + n)
  {
    hide Documented, LetterAnswer, FlagAnswers, LastAnswer, LastText, Repeat;
    var a, x, y := LetterAnswer(letters, flags[0]), FlagAnswers(letters, flags[1..]), LastAnswer(spec, last);
    var n := if last.Separate? then 2 else 1;
    var more := Documented(spec, orig, k + n, "");
    FlagFirst(letters, flags);
    Three(a, x, y, more.0);
    NoTag(Repeat(true, n) + more.1);
  }

  lemma FlagFirst(letters: Letters, flags: string)
    requires flags != ""
    ensures FlagAnswers(letters, flags) == [LetterAnswer(letters, flags[0])] + FlagAnswers(letters, flags[1..])
  {
    hide LetterAnswer;
  }

  lemma NoTag(tags: seq<bool>)
    ensures Repeat(true, 0) + tags == tags
  {
  }

  lemma Three<T>(a: T, x: seq<T>, y: seq<T>, z: seq<T>)
    ensures [a] + (x + y + z) == [a] + x + y + z
  {
  }

  /** Where the arguments of an element stand. */
  lemma Stands(orig: seq<string>, k: nat, args: seq<string>, more: seq<string>)
    requires k <= |orig| && orig[k..] == args + more
    ensures k + |args| <= |orig| && orig[k + |args|..] == more
    ensures forall i | 0 <= i < |args| :: orig[k + i] == args[i]
  {
    assert forall i | 0 <= i < |args| :: orig[k + i] == orig[k..][i] == args[i];
    assert orig[k + |args|..] == orig[k..][|args|..] == (args + more)[|args|..];
  }

  /** An option element is read as a whole. */
  lemma OptionRead(spec: Spec, letters: Letters, orig: seq<string>, k: nat, e: Element, more: seq<string>)
    requires TakesLetters(spec, letters) && ElementOk(spec, letters, e) && !e.Operand? && (Lacks(e) ==> more == [])
    requires k <= |orig| && orig[k..] == Rendered(spec, e) + more
    ensures var n := |Rendered(spec, e)|;
            && k + n <= |orig|
            && Goes(spec, orig, k, "", ElementAnswers(spec, letters, e), Repeat(true, n), k + n)
  {
    hide Documented, Decode, TakesLetters, Repeat, FlagsOk, LastOk;
    hide Calls, IsBad, LackCode, LongAnswer, IsOption, Opening;
    Stands(orig, k, Rendered(spec, e), more);
    assert orig[k] == Rendered(spec, e)[0];
    if e.Cluster? {
      if e.last.Separate? {
        assert orig[k + 1] == Rendered(spec, e)[1];
      }
      ClusterOptionRead(spec, letters, orig, k, e.flags, e.last);
    } else {
      if e.LongSeparate? {
        assert orig[k + 1] == Rendered(spec, e)[1];
      }
      LongRendered(spec, e);
      LongOptionRead(spec, letters, orig, k, e);
    }
  }

  lemma LongRendered(spec: Spec, e: Element)
    requires ElementShape(spec, e) && !e.Cluster? && !e.Operand?
    ensures Rendered(spec, e)[0] == "--" + LongText(spec, e)
    ensures |Rendered(spec, e)| == if e.LongSeparate? then 2 else 1
  {
    var name := if e.LongEquals? then e.name + ("=" + e.value) else if e.BadLong? then e.name + e.equals else e.name;
    assert LongText(spec, e) == name;
  }

  lemma ClusterOptionRead(spec: Spec, letters: Letters, orig: seq<string>, k: nat, flags: string, last: Last)
    requires TakesLetters(spec, letters) && ElementOk(spec, letters, Cluster(flags, last))
    requires k < |orig| && orig[k] == "-" + (flags + LastText(last))
    requires last.Separate? ==> k + 1 < |orig| && orig[k + 1] == last.value
    requires last.Lacking? ==> k + 1 == |orig|
    ensures var n := if last.Separate? then 2 else 1;
            && k + n <= |orig|
            && Goes(spec, orig, k, "", FlagAnswers(letters, flags) + LastAnswer(spec, last), Repeat(true, n), k + n)
  {
    hide Documented, TakesLetters, Repeat, FlagsOk, LastOk, FlagAnswers, LastAnswer, LastText;
    var text := flags + LastText(last);
    ClusterOpens(spec, orig[k], text);
    Opened(spec, orig, k);
    ClusterRead(spec, letters, orig, k, flags, last);
  }

  lemma LongOptionRead(spec: Spec, letters: Letters, orig: seq<string>, k: nat, e: Element)
    requires ElementOk(spec, letters, e) && !e.Cluster? && !e.Operand?
    requires k < |orig| && orig[k] == "--" + LongText(spec, e)
    requires e.LongSeparate? ==> k + 1 < |orig| && orig[k + 1] == e.value
    requires e.LongLacking? ==> k + 1 == |orig|
    ensures var n := if e.LongSeparate? then 2 else 1;
            && k + n <= |orig|
            && Goes(spec, orig, k, "", ElementAnswers(spec, letters, e), Repeat(true, n), k + n)
  {
    hide Documented, Decode, Repeat, Calls, IsBad, LackCode, LongAnswer, LongText, Opening;
    var text := LongText(spec, e);
    LongHasText(spec, letters, e);
    LongOpens(spec, orig[k], text);
    Opened(spec, orig, k);
    LongDecoded(spec, letters, orig[k..], e);
    Decodes(spec, orig, k, text, Decode(spec, spec.FirstOptions(), orig[k..], text));
  }

  lemma LongHasText(spec: Spec, letters: Letters, e: Element)
    requires ElementOk(spec, letters, e) && !e.Cluster? && !e.Operand?
    ensures LongText(spec, e) != "" && spec.longopts.Some?
  {
    hide Calls, IsBad;
  }

  lemma ClusterOpens(spec: Spec, arg: string, text: string)
    requires arg == "-" + text && text != "" && text[0] != '-'
    ensures IsOption(arg) && arg != "--" && arg[1] != '-' && Opening(spec, arg) == text
  {
    assert arg[1] == text[0] && arg[1..] == text;
  }

  lemma LongOpens(spec: Spec, arg: string, text: string)
    requires arg == "--" + text && text != "" && spec.longopts.Some?
    ensures IsOption(arg) && arg != "--" && arg[1] == '-' && Opening(spec, arg) == text
  {
    assert arg[2..] == text && |arg| > 2;
  }

  /** In Permute mode an operand is passed over within the next call. */
  lemma Passed(spec: Spec, orig: seq<string>, k: nat)
    requires k < |orig| && !IsOption(orig[k]) && spec.Mode() == Permute
    ensures var c, d := OneCall(spec, spec.FirstOptions(), orig, k, ""), OneCall(spec, spec.FirstOptions(), orig,
                                                                                 k + 1, "");
            c == d.(tags := [false] + d.tags)
  {
    hide Decode;
    var n := Skipped(orig[k + 1..]);
    assert orig[k..][0] == orig[k] && orig[k..][1..] == orig[k + 1..];
    assert Skipped(orig[k..]) == 1 + n;
    SkipTags(n);
    var opts, j := spec.FirstOptions(), k + 1 + n;
    if j < |orig| {
      assert IsOption(orig[k + 1..][n]);
      assert orig[j] == orig[k + 1..][n];
      if orig[j] == "--" {
        assert [false] + (Repeat(false, n) + [true] + Repeat(false, |orig| - j - 1))
               == Repeat(false, n + 1) + [true] + Repeat(false, |orig| - j - 1);
      } else {
        var d := Decode(spec, opts, orig[j..], Opening(spec, orig[j]));
        assert [false] + (Repeat(false, n) + Repeat(true, d.used)) == Repeat(false, n + 1) + Repeat(true, d.used);
      }
    }
  }

  lemma SkipTags(n: nat)
    ensures [false] + Repeat(false, n) == Repeat(false, n + 1)
  {
  }

  lemma OperandRead(spec: Spec, letters: Letters, orig: seq<string>, k: nat, arg: string)
    requires k < |orig| && orig[k] == arg && IsOperand(arg) && spec.Mode() != RequireOrder
    ensures Goes(spec, orig, k, "", ElementAnswers(spec, letters, Operand(arg)), [spec.Mode() != Permute], k + 1)
  {
    hide OneCall, Decode;
    var opts := spec.FirstOptions();
    OneCallMoves(spec, opts, orig, k, "");
    OneCallMoves(spec, opts, orig, k + 1, "");
    if spec.Mode() == Permute {
      Passed(spec, orig, k);
      var c, d := OneCall(spec, opts, orig, k, ""), OneCall(spec, opts, orig, k + 1, "");
      if !d.over {
        var rest := Documented(spec, orig, d.k, d.next);
        assert [false] + (d.tags + rest.1) == [false] + d.tags + rest.1;
      }
      assert forall x: seq<Answer> :: [] + x == x;
    } else {
      Reported(spec, orig, k, arg);
    }
  }

  lemma Reported(spec: Spec, orig: seq<string>, k: nat, arg: string)
    requires k < |orig| && orig[k] == arg && IsOperand(arg) && spec.Mode() == ReturnInOrder
    ensures OneCall(spec, spec.FirstOptions(), orig, k, "")
         == Call(Answer(1, Some(arg), None, None, None), k + 1, "", [true], false)
  {
  }

  /** Which arguments are read as options. */
  function LineTags(spec: Spec, line: Line): (tags: seq<bool>)
    requires LineShape(spec, line)
    ensures |tags| == |Arguments(spec, line)|
  {
    match line
    case End => []
    case Marker(rest) => [true] + Repeat(false, |rest|)
    case Stop(rest) => Repeat(false, |rest|)
    case More(first, more) => Repeat(!IsLeft(spec, first), |Rendered(spec, first)|) + LineTags(spec, more)
  }

  /** The last call. */
  lemma EndRead(spec: Spec, letters: Letters, orig: seq<string>, k: nat, line: Line)
    requires LineOk(spec, letters, line) && !line.More? && LineShape(spec, line)
    requires k <= |orig| && orig[k..] == Arguments(spec, line)
    ensures Documented(spec, orig, k, "") == (LineAnswers(spec, letters, line), LineTags(spec, line))
  {
    OneCallMoves(spec, spec.FirstOptions(), orig, k, "");
    LastCall(spec, letters, orig, k, line);
    hide OneCall, LineTags, LineOk;
  }

  lemma LastCall(spec: Spec, letters: Letters, orig: seq<string>, k: nat, line: Line)
    requires LineOk(spec, letters, line) && !line.More? && LineShape(spec, line)
    requires k <= |orig| && orig[k..] == Arguments(spec, line)
    ensures OneCall(spec, spec.FirstOptions(), orig, k, "")
         == Call(Answer(-1, None, None, None, None), |orig|, "", LineTags(spec, line), true)
  {
    hide Decode;
    var args := orig[k..];
    assert |args| == |orig| - k && (k < |orig| ==> args[0] == orig[k]);
    if line.Marker? {
      assert args[0] == "--" && Skipped(args) == 0;
      assert Repeat(false, 0) + [true] + Repeat(false, |line.rest|) == [true] + Repeat(false, |line.rest|);
    } else if line.End? {
      assert Repeat(false, 0) == [];
    }
  }

  lemma {:induction false} LineRead(spec: Spec, letters: Letters, orig: seq<string>, k: nat, line: Line)
    requires TakesLetters(spec, letters) && LineShape(spec, line) && LineOk(spec, letters, line)
    requires k <= |orig| && orig[k..] == Arguments(spec, line)
    ensures Documented(spec, orig, k, "") == (LineAnswers(spec, letters, line), LineTags(spec, line))
    decreases line
  {
    hide Documented, TakesLetters, ElementOk, ElementAnswers, Rendered, Repeat;
    if line.More? {
      var e, n, more := line.first, |Rendered(spec, line.first)|, Arguments(spec, line.more);
      Stands(orig, k, Rendered(spec, e), more);
      ElementRead(spec, letters, orig, k, e, more);
      LineRead(spec, letters, orig, k + n, line.more);
    } else {
      EndRead(spec, letters, orig, k, line);
    }
  }

  lemma ElementRead(spec: Spec, letters: Letters, orig: seq<string>, k: nat, e: Element, more: seq<string>)
    requires TakesLetters(spec, letters) && ElementOk(spec, letters, e) && ElementShape(spec, e)
    requires (e.Operand? ==> spec.Mode() != RequireOrder) && (Lacks(e) ==> more == [])
    requires k <= |orig| && orig[k..] == Rendered(spec, e) + more
    ensures var n := |Rendered(spec, e)|;
            && k + n <= |orig|
            && Goes(spec, orig, k, "", ElementAnswers(spec, letters, e), Repeat(!IsLeft(spec, e), n), k + n)
  {
    hide Goes, TakesLetters, LastOk, FlagsOk;
    if e.Operand? {
      Stands(orig, k, Rendered(spec, e), more);
      assert orig[k] == Rendered(spec, e)[0];
      OperandRead(spec, letters, orig, k, e.arg);
      assert Repeat(!IsLeft(spec, e), 1) == [spec.Mode() != Permute];
    } else {
      OptionRead(spec, letters, orig, k, e, more);
    }
  }

  /** What the tags pick from the arguments. */
  lemma {:induction false} LinePicks(spec: Spec, line: Line)
    requires LineShape(spec, line)
    ensures Pick(Arguments(spec, line), LineTags(spec, line), true) == Read(spec, line)
    ensures Pick(Arguments(spec, line), LineTags(spec, line), false) == Operands(spec, line)
    decreases line
  {
    hide Pick, Rendered;
    match line
    case End => NothingPicked();
    case Marker(rest) =>
      PickAll(["--"], true);
      PickAll(rest, false);
      assert Repeat(true, 1) == [true] by { OneTag(); }
      PickAppend(["--"], [true], rest, Repeat(false, |rest|), true);
      PickAppend(["--"], [true], rest, Repeat(false, |rest|), false);
    case Stop(rest) => PickAll(rest, false);
    case More(first, more) =>
      LinePicks(spec, more);
      var args, b := Rendered(spec, first), !IsLeft(spec, first);
      PickAll(args, b);
      PickAppend(args, Repeat(b, |args|), Arguments(spec, more), LineTags(spec, more), true);
      PickAppend(args, Repeat(b, |args|), Arguments(spec, more), LineTags(spec, more), false);
  }

  lemma OneTag()
    ensures Repeat(true, 1) == [true]
  {
  }

  lemma NothingPicked()
    ensures Pick([], [], true) == [] && Pick([], [], false) == []
  {
  }

  /** A run over a rendered command line: exactly its options are answered, with their
      arguments, and the operands are told apart. */
  lemma RunBack(spec: Spec, letters: Letters, line: Line, program: string)
    requires TakesLetters(spec, letters) && Steady(spec) && LineShape(spec, line) && LineOk(spec, letters, line)
    ensures var orig := [program] + Arguments(spec, line);
            && Run(spec, spec.FirstOptions(), orig, 1, "") == (LineAnswers(spec, letters, line), LineTags(spec, line))
            && Pick(orig[1..], LineTags(spec, line), true) == Read(spec, line)
            && Pick(orig[1..], LineTags(spec, line), false) == Operands(spec, line)
  {
    hide Documented, Run, Steady, TakesLetters, LineOk, Pick;
    var orig := [program] + Arguments(spec, line);
    assert orig[1..] == Arguments(spec, line);
    SteadyAgrees(spec, orig);
    LineRead(spec, letters, orig, 1, line);
    LinePicks(spec, line);
  }

  /** The loop of a program on a rendered command line: the options come as they were meant,
      whatever stands between them; afterwards they stand in front, and the operands, with
      everything behind a double dash, from optind on. */
  method ReadLine(spec: Spec, argv: array<string>, ghost letters: Letters, ghost line: Line)
    returns (s: Scanner, answers: seq<Answer>)
    requires TakesLetters(spec, letters) && Steady(spec) && EofIsClear(spec)
    requires LineShape(spec, line) && LineOk(spec, letters, line)
    requires argv.Length >= 1 && argv[1..] == Arguments(spec, line)
    modifies argv
    ensures answers == LineAnswers(spec, letters, line)
    ensures s.argv == argv && 1 <= s.optind <= argv.Length
    ensures argv[..s.optind] == [old(argv[0])] + Read(spec, line) && argv[s.optind..] == Operands(spec, line)
  {
    hide Run, Steady, TakesLetters, LineOk, Pick, LineTags, LineAnswers, Read, Operands;
    ghost var program := argv[0];
    assert argv[..] == [program] + Arguments(spec, line);
    RunBack(spec, letters, line, program);
    s, answers := ReadAll(spec, argv);
    ghost var front := [program] + Read(spec, line);
    assert argv[..] == front + Operands(spec, line) && s.optind == |front|;
  }
}
