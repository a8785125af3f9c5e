/** The character in front of the option string that sets the mode. The first call of
    getopt skips it; later calls get the whole string, where the character can be found
    as an option letter, and hides a colon behind it. */
module GetoptMode {
  import opened Wrappers
  import opened GetoptSpec

  /** The run in which every call skips the character, as the comments of getopt have it. */
  ghost function Documented(spec: Spec, orig: seq<string>, k: nat, next: string): (r: (seq<Answer>, seq<bool>))
    requires k <= |orig| && (next != "" ==> k < |orig| && IsOption(orig[k]))
    decreases |orig| - k, Left(orig, k, next)
  {
    OneCallMoves(spec, spec.FirstOptions(), orig, k, next);
    var c := OneCall(spec, spec.FirstOptions(), orig, k, next);
    if c.over then ([c.answer], c.tags)
    else
      var rest := Documented(spec, orig, c.k, c.next);
      ([c.answer] + rest.0, c.tags + rest.1)
  }

  ghost predicate Agrees(spec: Spec, orig: seq<string>)
    requires |orig| >= 1
  {
    Run(spec, spec.FirstOptions(), orig, 1, "") == Documented(spec, orig, 1, "")
  }

  predicate HasMode(spec: Spec) {
    spec.optstring != "" && spec.optstring[0] in "-+"
  }

  /** What an option string says of a letter. */
  datatype Letter = Unknown | Flag | Required | Optional

  function LetterOf(opts: string, c: char): Letter {
    var i := IndexOf(opts, c);
    if i == |opts| || c == ':' then Unknown
    else if |opts| <= i + 1 || opts[i + 1] != ':' then Flag
    else if i + 2 < |opts| && opts[i + 2] == ':' then Optional
    else Required
  }

  /** A long option that requires an argument can be named, perhaps by an abbreviation. */
  ghost predicate NamesRequired(opts: seq<LongOption>) {
    exists k, n :: 0 <= k < |opts| && 0 < n <= |opts[k].name| && IsRequired(opts, k, n)
  }

  ghost predicate IsRequired(opts: seq<LongOption>, k: nat, n: nat)
    requires k < |opts| && n <= |opts[k].name|
  {
    opts[k].hasArg == 1 && '=' !in opts[k].name[..n] && LongMatch(opts, opts[k].name[..n]) == Found(k)
  }

  /** Some option, short or long, requires an argument. */
  ghost predicate SomeRequired(spec: Spec) {
    || (exists c :: LetterOf(spec.FirstOptions(), c) == Required)
    || (spec.longopts.Some? && NamesRequired(spec.longopts.value))
  }

  /** The leading colon asks for a colon as the answer to a missing argument. */
  predicate AsksForColon(opts: string) {
    opts != "" && opts[0] == ':'
  }

  /** Letters are tried as long options first. */
  predicate Only(spec: Spec) {
    spec.longOnly && spec.longopts.Some?
  }

  /** The mode character means the same with and without the first character, and no
      option can miss its argument when the string asks to be told. With `longOnly`, it is
      enough that no element can show the difference. */
  ghost predicate Steady(spec: Spec) {
    HasMode(spec) ==>
      if Only(spec) then
        !ShowsLetter(spec) && !ShowsColon(spec)
      else
        && LetterOf(spec.optstring, spec.optstring[0]) == LetterOf(spec.FirstOptions(), spec.optstring[0])
        && (AsksForColon(spec.FirstOptions()) ==> !SomeRequired(spec))
  }

  // What elements can show when letters are tried as long options first.

  /** No long option begins with these characters. */
  ghost predicate Unmatched(spec: Spec, name: string) {
    spec.longopts.Some? && LongMatch(spec.longopts.value, name).Missing?
  }

  /** Reading goes on behind this letter. */
  predicate Passes(opts: string, c: char) {
    c in opts && (c == ':' || LetterOf(opts, c) == Flag)
  }

  /** The name that is looked for among the long options. */
  function NameOf(next: string): string {
    next[..IndexOf(next, '=')]
  }

  /** The letter c can be read: a dash only behind another letter. */
  ghost predicate Reached(spec: Spec, c: char) {
    c == '-' ==>
      exists p :: p != '-' && Passes(spec.FirstOptions(), p) && (p == '=' ==> Unmatched(spec, ""))
  }

  /** The letter c can be read as the last of its element. */
  ghost predicate ReachedLast(spec: Spec, c: char) {
    c == '-' ==> exists p :: p != '-' && Passes(spec.FirstOptions(), p) && Unmatched(spec, NameOf([p, '-']))
  }

  predicate HasArgument(l: Letter) {
    l == Required || l == Optional
  }

  /** Some element shows that the mode character is a letter of another kind: whether its
      argument is optional shows at the end of an element only. */
  ghost predicate ShowsLetter(spec: Spec)
    requires HasMode(spec)
  {
    var m := spec.optstring[0];
    var l, l' := LetterOf(spec.optstring, m), LetterOf(spec.FirstOptions(), m);
    && l != l'
    && if HasArgument(l) && HasArgument(l') then Unmatched(spec, NameOf([m])) && ReachedLast(spec, m)
       else Reached(spec, m)
  }

  /** Some element misses its argument, and the colon that asks to be told is hidden. */
  ghost predicate ShowsColon(spec: Spec)
    requires Only(spec)
  {
    && AsksForColon(spec.FirstOptions())
    && (NamesRequired(spec.longopts.value)
        || exists c ::
             LetterOf(spec.FirstOptions(), c) == Required && Unmatched(spec, NameOf([c])) && ReachedLast(spec, c))
  }

  /** The mode character stands in no option element. */
  predicate Unused(spec: Spec, orig: seq<string>)
    requires HasMode(spec)
  {
    forall i | 0 <= i < |orig| && IsOption(orig[i]) && orig[i] != "--" :: spec.optstring[0] !in Opening(spec, orig[i])
  }

  /** The weaker condition for given arguments. */
  ghost predicate Harmless(spec: Spec, orig: seq<string>) {
    HasMode(spec) ==>
      && (LetterOf(spec.optstring, spec.optstring[0]) == LetterOf(spec.FirstOptions(), spec.optstring[0])
          || Unused(spec, orig))
      && (AsksForColon(spec.FirstOptions()) ==> !SomeRequired(spec))
  }

  // ------------------------------------------------------------------ the runs agree

  lemma Shifted(m: char, opts: string, c: char)
    requires c != m
    ensures IndexOf([m] + opts, c) == 1 + IndexOf(opts, c) && LetterOf([m] + opts, c) == LetterOf(opts, c)
    ensures c in [m] + opts <==> c in opts
  {
    assert ([m] + opts)[1..] == opts;
  }

  lemma Known(opts: string, c: char)
    ensures c != ':' ==> (LetterOf(opts, c) == Unknown <==> c !in opts)
  {
    assert opts[..|opts|] == opts;
  }

  /** A letter that means the same is decoded alike. */
  lemma ShortSame(opts: string, opts': string, args: seq<string>, next: string)
    requires args != [] && next != "" && LetterOf(opts, next[0]) == LetterOf(opts', next[0])
    requires LetterOf(opts, next[0]) == Required ==> MissingArgument(opts) == MissingArgument(opts')
    ensures DecodeShort(opts, args, next) == DecodeShort(opts', args, next)
  {
  }

  lemma DecodeSame(spec: Spec, args: seq<string>, next: string)
    requires args != [] && next != "" && IsOption(args[0]) && HasMode(spec)
    requires LetterOf(spec.optstring, next[0]) == LetterOf(spec.FirstOptions(), next[0])
    requires AsksForColon(spec.FirstOptions()) ==> !SomeRequired(spec)
    ensures Decode(spec, spec.optstring, args, next) == Decode(spec, spec.FirstOptions(), args, next)
  {
    var m, o, f := spec.optstring[0], spec.optstring, spec.FirstOptions();
    assert o == [m] + f;
    ShortSame(o, f, args, next);
    if next[0] == m {
      Known(o, m);
      Known(f, m);
    } else {
      Shifted(m, f, next[0]);
    }
    assert next[0] in o <==> next[0] in f;
    if spec.longopts.Some? {
      LongSame(spec, args, next);
    }
  }

  lemma LongSame(spec: Spec, args: seq<string>, next: string)
    requires args != [] && next != "" && HasMode(spec) && spec.longopts.Some?
    requires AsksForColon(spec.FirstOptions()) ==> !NamesRequired(spec.longopts.value)
    ensures var opts, n := spec.longopts.value, IndexOf(next, '=');
            var m := LongMatch(opts, next[..n]);
            m.Found? ==>
              DecodeFound(spec.optstring, opts[m.index], m.index, args, next[n..])
                == DecodeFound(spec.FirstOptions(), opts[m.index], m.index, args, next[n..])
  {
    var opts, n := spec.longopts.value, IndexOf(next, '=');
    var m := LongMatch(opts, next[..n]);
    if m.Found? && next[n..] == "" && opts[m.index].hasArg == 1 {
      assert next[..n] == next == opts[m.index].name[..n];
      assert IsRequired(opts, m.index, n);
    }
  }

  /** The characters left of an element are among those it was opened with. */
  ghost predicate Within(spec: Spec, orig: seq<string>, k: nat, next: string) {
    next != "" ==>
      && k < |orig| && IsOption(orig[k]) && orig[k] != "--"
      && forall c | c in next :: c in Opening(spec, orig[k])
  }

  lemma OneCallSame(spec: Spec, orig: seq<string>, k: nat, next: string)
    requires k <= |orig| && Within(spec, orig, k, next) && Harmless(spec, orig) && HasMode(spec)
    ensures OneCall(spec, spec.optstring, orig, k, next) == OneCall(spec, spec.FirstOptions(), orig, k, next)
    ensures var c := OneCall(spec, spec.optstring, orig, k, next); Within(spec, orig, c.k, c.next)
  {
    hide Decode, LetterOf, SomeRequired;
    var j := if next == "" && spec.Mode() == Permute then k + Skipped(orig[k..]) else k;
    if j < |orig| && IsOption(orig[j]) && (next != "" || orig[j] != "--") {
      var x := if next != "" then next else Opening(spec, orig[j]);
      if x[0] != spec.optstring[0] {
        Shifted(spec.optstring[0], spec.FirstOptions(), x[0]);
        assert spec.optstring == [spec.optstring[0]] + spec.FirstOptions();
      }
      DecodeSame(spec, orig[j..], x);
      DecodeMoves(spec, spec.optstring, orig[j..], x);
    }
  }

  lemma {:induction false} LaterSame(spec: Spec, orig: seq<string>, k: nat, next: string)
    requires k <= |orig| && Within(spec, orig, k, next) && Harmless(spec, orig) && HasMode(spec)
    ensures Run(spec, spec.optstring, orig, k, next) == Documented(spec, orig, k, next)
    decreases |orig| - k, Left(orig, k, next)
  {
    hide OneCall, Harmless;
    OneCallMoves(spec, spec.optstring, orig, k, next);
    OneCallSame(spec, orig, k, next);
    var c := OneCall(spec, spec.optstring, orig, k, next);
    if !c.over {
      LaterSame(spec, orig, c.k, c.next);
    }
  }

  /** Without a mode character all calls get the same string. */
  lemma {:induction false} NoMode(spec: Spec, orig: seq<string>, k: nat, next: string)
    requires k <= |orig| && (next != "" ==> k < |orig| && IsOption(orig[k])) && !HasMode(spec)
    ensures Run(spec, spec.optstring, orig, k, next) == Documented(spec, orig, k, next)
    decreases |orig| - k, Left(orig, k, next)
  {
    hide OneCall;
    OneCallMoves(spec, spec.optstring, orig, k, next);
    var c := OneCall(spec, spec.optstring, orig, k, next);
    if !c.over {
      NoMode(spec, orig, c.k, c.next);
    }
  }

  /** The first call is the same in both runs. */
  lemma FirstWithin(spec: Spec, orig: seq<string>)
    requires |orig| >= 1
    ensures var c := OneCall(spec, spec.FirstOptions(), orig, 1, ""); Within(spec, orig, c.k, c.next)
  {
    hide Decode;
    var j := if spec.Mode() == Permute then 1 + Skipped(orig[1..]) else 1;
    if j < |orig| && IsOption(orig[j]) && orig[j] != "--" {
      DecodeMoves(spec, spec.FirstOptions(), orig[j..], Opening(spec, orig[j]));
    }
  }

  /** For harmless arguments a run is the documented one. */
  lemma HarmlessAgrees(spec: Spec, orig: seq<string>)
    requires |orig| >= 1 && Harmless(spec, orig)
    ensures Agrees(spec, orig)
  {
    hide OneCall, Harmless;
    OneCallMoves(spec, spec.FirstOptions(), orig, 1, "");
    FirstWithin(spec, orig);
    var c := OneCall(spec, spec.FirstOptions(), orig, 1, "");
    if !c.over {
      if HasMode(spec) {
        LaterSame(spec, orig, c.k, c.next);
      } else {
        NoMode(spec, orig, c.k, c.next);
      }
    }
  }

  // ------------------------------------- the runs agree, with long options tried first

  /** What is known of an element of which something is left. */
  ghost predicate Ready(spec: Spec, orig: seq<string>, k: nat, next: string) {
    next != "" ==>
      && k < |orig| && IsOption(orig[k]) && orig[k][1] != '-' && Reached(spec, '-')
      && (next == "-" && LetterOf(spec.FirstOptions(), '-') != Flag ==> ReachedLast(spec, '-'))
  }

  /** A letter that can be read is of one kind, or its argument is optional in one case only. */
  lemma Kinds(spec: Spec, c: char)
    requires HasMode(spec) && !ShowsLetter(spec) && Reached(spec, c)
    ensures var o, f := spec.optstring, spec.FirstOptions();
            && (c in o <==> c in f)
            && (LetterOf(o, c) == LetterOf(f, c)
                || (HasArgument(LetterOf(o, c)) && HasArgument(LetterOf(f, c)) && c == o[0]
                    && !(Unmatched(spec, NameOf([c])) && ReachedLast(spec, c))))
  {
    hide ReachedLast, Reached, Unmatched;
    var m, o, f := spec.optstring[0], spec.optstring, spec.FirstOptions();
    assert o == [m] + f;
    if c != m {
      Shifted(m, f, c);
    } else {
      Known(o, m);
      Known(f, m);
    }
  }

  /** The colon matters for no letter that is the last of the arguments. */
  lemma NoColon(spec: Spec, c: char)
    requires HasMode(spec) && Only(spec) && !ShowsColon(spec)
    requires LetterOf(spec.FirstOptions(), c) == Required && Unmatched(spec, NameOf([c])) && ReachedLast(spec, c)
    ensures MissingArgument(spec.optstring) == MissingArgument(spec.FirstOptions())
  {
    hide LetterOf, Unmatched, ReachedLast, NamesRequired;
  }

  /** A letter that is left to the option string is decoded alike. */
  lemma LetterSame(spec: Spec, args: seq<string>, next: string)
    requires args != [] && next != "" && HasMode(spec) && Only(spec) && Steady(spec)
    requires Reached(spec, next[0]) && (|next| == 1 ==> Unmatched(spec, NameOf(next)))
    requires |next| == 1 && LetterOf(spec.FirstOptions(), next[0]) != Flag ==> ReachedLast(spec, next[0])
    ensures DecodeShort(spec.optstring, args, next) == DecodeShort(spec.FirstOptions(), args, next)
    ensures next[0] in spec.optstring <==> next[0] in spec.FirstOptions()
  {
    hide LetterOf, ReachedLast, Reached, NamesRequired;
    hide Unmatched, ShowsLetter, ShowsColon, DecodeShort, MissingArgument;
    var o, f, c := spec.optstring, spec.FirstOptions(), next[0];
    Kinds(spec, c);
    if |next| == 1 {
      assert next == [c];
    }
    if LetterOf(o, c) == LetterOf(f, c) {
      if LetterOf(f, c) == Required && |next| == 1 {
        NoColon(spec, c);
      }
      KindSame(o, f, args, next);
    } else {
      BothArguments(o, f, args, next);
    }
  }

  /** Letters of the same kind differ at most in the answer to a missing argument. */
  lemma KindSame(o: string, f: string, args: seq<string>, next: string)
    requires args != [] && next != "" && LetterOf(o, next[0]) == LetterOf(f, next[0])
    requires LetterOf(o, next[0]) == Required && |next| == 1 ==> MissingArgument(o) == MissingArgument(f)
    ensures DecodeShort(o, args, next) == DecodeShort(f, args, next)
  {
  }

  /** An argument in the same element is taken, whether it is required or optional. */
  lemma BothArguments(o: string, f: string, args: seq<string>, next: string)
    requires args != [] && |next| > 1 && HasArgument(LetterOf(o, next[0])) && HasArgument(LetterOf(f, next[0]))
    ensures DecodeShort(o, args, next) == DecodeShort(f, args, next)
  {
  }

  /** How an option is decoded when letters are tried as long options first. */
  lemma OnlyCases(spec: Spec, opts: string, args: seq<string>, next: string)
    requires args != [] && next != "" && IsOption(args[0]) && Only(spec)
    ensures var d, m := Decode(spec, opts, args, next), LongMatch(spec.longopts.value, NameOf(next));
            && (m.Ambiguous? ==> d == Decoded(Plain(BAD_OPTION), 1, ""))
            && (m.Found? ==> d == DecodeFound(opts, spec.longopts.value[m.index], m.index, args,
                                              next[|NameOf(next)|..]))
            && (m.Missing? ==>
                  d == if args[0][1] == '-' || next[0] !in opts then Decoded(Plain(BAD_OPTION), 1, "")
                       else DecodeShort(opts, args, next))
  {
    hide DecodeShort, DecodeFound;
  }

  lemma OnlyDecodeSame(spec: Spec, args: seq<string>, next: string)
    requires args != [] && next != "" && IsOption(args[0]) && HasMode(spec) && Only(spec) && Steady(spec)
    requires args[0][1] != '-' ==>
               && Reached(spec, next[0])
               && (|next| == 1 && LetterOf(spec.FirstOptions(), next[0]) != Flag ==> ReachedLast(spec, next[0]))
    ensures Decode(spec, spec.optstring, args, next) == Decode(spec, spec.FirstOptions(), args, next)
  {
    hide Decode, DecodeShort, DecodeFound, Reached, ReachedLast, NamesRequired, LetterOf, ShowsLetter;
    OnlyCases(spec, spec.optstring, args, next);
    OnlyCases(spec, spec.FirstOptions(), args, next);
    LongSame(spec, args, next);
    hide ShowsColon;
    if LongMatch(spec.longopts.value, NameOf(next)).Missing? && args[0][1] != '-' {
      LetterSame(spec, args, next);
    }
  }

  /** What is left of an element, if anything, follows a letter that passes. */
  lemma OnlyLeaves(spec: Spec, args: seq<string>, next: string)
    requires args != [] && next != "" && IsOption(args[0]) && Only(spec)
    ensures var d := Decode(spec, spec.FirstOptions(), args, next);
            d.next != "" ==>
              && d.used == 0 && args[0][1] != '-' && Passes(spec.FirstOptions(), next[0]) && d.next == next[1..]
              && (d.next == "-" ==> Unmatched(spec, NameOf([next[0], '-'])))
              && (next[0] == '=' ==> Unmatched(spec, ""))
  {
    hide Decode;
    OnlyCases(spec, spec.FirstOptions(), args, next);
    var d := Decode(spec, spec.FirstOptions(), args, next);
    if d.next == "-" {
      assert next == [next[0], '-'];
    }
  }

  /** The next element, or what is left of one, is decoded alike; then what is left is ready. */
  lemma OnlyReads(spec: Spec, orig: seq<string>, j: nat, next: string)
    requires j < |orig| && IsOption(orig[j]) && next != "" && Only(spec)
    requires Ready(spec, orig, j, next) || (orig[j] != "--" && next == Opening(spec, orig[j]))
    ensures HasMode(spec) && Steady(spec) ==>
              Decode(spec, spec.optstring, orig[j..], next) == Decode(spec, spec.FirstOptions(), orig[j..], next)
    ensures var d := Decode(spec, spec.FirstOptions(), orig[j..], next);
            d.next != "" ==> d.used == 0 && Ready(spec, orig, j, d.next)
  {
    hide Decode, LetterOf, Unmatched, Steady;
    OnlyLeaves(spec, orig[j..], next);
    if HasMode(spec) && Steady(spec) {
      OnlyDecodeSame(spec, orig[j..], next);
    }
  }

  /** One call is the same with both strings. */
  lemma OnlyCallSame(spec: Spec, orig: seq<string>, k: nat, next: string)
    requires k <= |orig| && Ready(spec, orig, k, next) && Only(spec)
    ensures HasMode(spec) && Steady(spec) ==>
              OneCall(spec, spec.optstring, orig, k, next) == OneCall(spec, spec.FirstOptions(), orig, k, next)
    ensures var c := OneCall(spec, spec.FirstOptions(), orig, k, next); Ready(spec, orig, c.k, c.next)
  {
    hide Decode, Reached, ReachedLast, LetterOf, Steady;
    var j := if next == "" && spec.Mode() == Permute then k + Skipped(orig[k..]) else k;
    if j < |orig| && IsOption(orig[j]) && (next != "" || orig[j] != "--") {
      OnlyReads(spec, orig, j, if next != "" then next else Opening(spec, orig[j]));
    }
  }

  lemma {:induction false} OnlyLaterSame(spec: Spec, orig: seq<string>, k: nat, next: string)
    requires k <= |orig| && Ready(spec, orig, k, next) && Only(spec) && HasMode(spec) && Steady(spec)
    ensures Run(spec, spec.optstring, orig, k, next) == Documented(spec, orig, k, next)
    decreases |orig| - k, Left(orig, k, next)
  {
    hide OneCall, Steady, Reached, ReachedLast, LetterOf;
    OneCallMoves(spec, spec.optstring, orig, k, next);
    OnlyCallSame(spec, orig, k, next);
    var c := OneCall(spec, spec.optstring, orig, k, next);
    if !c.over {
      OnlyLaterSame(spec, orig, c.k, c.next);
    }
  }

  lemma OnlyAgrees(spec: Spec, orig: seq<string>)
    requires |orig| >= 1 && Only(spec) && HasMode(spec) && Steady(spec)
    ensures Agrees(spec, orig)
  {
    hide OneCall, Steady, Ready;
    assert Ready(spec, orig, 1, "") by { NothingLeft(spec, orig, 1); }
    OneCallMoves(spec, spec.FirstOptions(), orig, 1, "");
    OnlyCallSame(spec, orig, 1, "");
    var c := OneCall(spec, spec.FirstOptions(), orig, 1, "");
    if !c.over {
      OnlyLaterSame(spec, orig, c.k, c.next);
    }
  }

  lemma NothingLeft(spec: Spec, orig: seq<string>, k: nat)
    ensures Ready(spec, orig, k, "")
  {
  }

  // --------------------------------------------------------------- the runs disagree

  /** The run disagrees when its second call does. */
  lemma SecondDiffers(spec: Spec, orig: seq<string>)
    requires |orig| >= 1 && !OneCall(spec, spec.FirstOptions(), orig, 1, "").over
    requires var c := OneCall(spec, spec.FirstOptions(), orig, 1, "");
             && c.k <= |orig| && (c.next != "" ==> c.k < |orig| && IsOption(orig[c.k]))
             && OneCall(spec, spec.optstring, orig, c.k, c.next).answer
                != OneCall(spec, spec.FirstOptions(), orig, c.k, c.next).answer
    ensures !Agrees(spec, orig)
  {
    hide OneCall;
    var run, documented := Run(spec, spec.FirstOptions(), orig, 1, ""), Documented(spec, orig, 1, "");
    var c := OneCall(spec, spec.FirstOptions(), orig, 1, "");
    var more, more' := Run(spec, spec.optstring, orig, c.k, c.next), Documented(spec, orig, c.k, c.next);
    assert run.0[1] == more.0[0] && documented.0[1] == more'.0[0];
  }

  /** An element that begins with a colon: the first call complains, the second reads on. */
  lemma AfterColon(spec: Spec, next: string, more: seq<string>)
    requires HasMode(spec) && !Only(spec) && next != ""
    ensures var orig := ["", "-:" + next] + more;
            var c := OneCall(spec, spec.FirstOptions(), orig, 1, "");
            && !c.over && c.k == 1 && c.next == next
            && (forall opts :: OneCall(spec, opts, orig, 1, next).answer == DecodeShort(opts, orig[1..], next).answer)
  {
    var orig := ["", "-:" + next] + more;
    assert Opening(spec, orig[1]) == ":" + next && (":" + next)[1..] == next;
  }

  /** What the letter c is answered with, before another one or in front of an argument. */
  lemma LetterShows(opts: string, c: char, args: seq<string>)
    requires |args| >= 2
    ensures var a, l := DecodeShort(opts, args, [c, c]).answer, LetterOf(opts, c);
            a == if l == Unknown then Plain(BAD_OPTION).(optopt := Some(c))
                 else if l == Flag then Plain(c as int)
                 else Plain(c as int).(optarg := Some([c]))
    ensures var a, l := DecodeShort(opts, args, [c]).answer, LetterOf(opts, c);
            && (l == Required ==> a == Plain(c as int).(optarg := Some(args[1])))
            && (l == Optional ==> a == Plain(c as int))
  {
    assert [c, c][1..] == [c];
  }

  lemma LetterDiffers(spec: Spec)
    requires HasMode(spec) && !Only(spec)
    requires LetterOf(spec.optstring, spec.optstring[0]) != LetterOf(spec.FirstOptions(), spec.optstring[0])
    ensures exists orig :: |orig| >= 1 && !Agrees(spec, orig)
  {
    hide Agrees;
    hide OneCall, DecodeShort, LetterOf;
    var m := spec.optstring[0];
    var l, l' := LetterOf(spec.optstring, m), LetterOf(spec.FirstOptions(), m);
    var next, more := if l in {Required, Optional} && l' in {Required, Optional} then [m] else [m, m], ["x"];
    AfterColon(spec, next, more);
    var args := (["", "-:" + next] + more)[1..];
    LetterShows(spec.optstring, m, args);
    LetterShows(spec.FirstOptions(), m, args);
    SecondDiffers(spec, ["", "-:" + next] + more);
  }

  lemma LetterMisses(opts: string, c: char, arg: string)
    requires LetterOf(opts, c) == Required
    ensures DecodeShort(opts, [arg], [c]).answer == Plain(MissingArgument(opts)).(optopt := Some(c))
  {
  }

  lemma ColonDiffers(spec: Spec, c: char)
    requires HasMode(spec) && !Only(spec) && AsksForColon(spec.FirstOptions())
    requires LetterOf(spec.FirstOptions(), c) == LetterOf(spec.optstring, c) == Required
    ensures exists orig :: |orig| >= 1 && !Agrees(spec, orig)
  {
    hide OneCall, Agrees, DecodeShort, LetterOf;
    AfterColon(spec, [c], []);
    var orig := ["", "-:" + [c]] + [];
    assert orig[1..] == [orig[1]];
    LetterMisses(spec.optstring, c, orig[1]);
    LetterMisses(spec.FirstOptions(), c, orig[1]);
    SecondDiffers(spec, orig);
  }

  lemma LongDiffers(spec: Spec, k: nat, n: nat)
    requires HasMode(spec) && !Only(spec) && AsksForColon(spec.FirstOptions()) && spec.longopts.Some?
    requires k < |spec.longopts.value| && 0 < n <= |spec.longopts.value[k].name|
    requires IsRequired(spec.longopts.value, k, n)
    ensures exists orig :: |orig| >= 1 && !Agrees(spec, orig)
  {
    hide Agrees;
    var name := spec.longopts.value[k].name[..n];
    var orig := ["", "-:", "--" + name];
    var c := OneCall(spec, spec.FirstOptions(), orig, 1, "");
    assert Opening(spec, orig[1]) == ":" && !c.over && c.k == 2 && c.next == "";
    assert Opening(spec, orig[2]) == name && orig[2..] == [orig[2]];
    forall opts
      ensures OneCall(spec, opts, orig, 2, "").answer == Plain(MissingArgument(opts))
    {
      assert IndexOf(name, '=') == n && name[..n] == name && name[n..] == "";
    }
    hide OneCall;
    SecondDiffers(spec, orig);
  }

  // --------------------------------- the runs disagree, with long options tried first

  /** Characters that are longer than every name. */
  function Padding(opts: seq<LongOption>): (pad: string)
    ensures pad != "" && (forall c | c in pad :: c == 'x') && forall i | 0 <= i < |opts| :: |opts[i].name| < |pad|
  {
    if opts == [] then "x"
    else
      var k := |opts| - 1;
      Padding(opts[..k]) + seq(|opts[k].name|, _ => 'x')
  }

  /** A long name is no abbreviation. */
  lemma TooLong(opts: seq<LongOption>, name: string)
    requires forall i | 0 <= i < |opts| :: |opts[i].name| < |name|
    ensures LongMatch(opts, name).Missing?
  {
    MatchUnique(opts, name, Missing, LongMatch(opts, name));
  }

  lemma WholeName(next: string)
    requires '=' !in next
    ensures NameOf(next) == next && IndexOf(next, '=') == |next|
  {
    assert next[..|next|] == next;
  }

  /** The first call does not know a long name, and the second begins with the next element. */
  lemma AfterLongName(spec: Spec, more: seq<string>)
    requires HasMode(spec) && Only(spec)
    ensures var orig := ["", "--" + Padding(spec.longopts.value)] + more;
            var c := OneCall(spec, spec.FirstOptions(), orig, 1, "");
            !c.over && c.k == 2 && c.next == ""
  {
    var pad := Padding(spec.longopts.value);
    var orig := ["", "--" + pad] + more;
    assert Opening(spec, orig[1]) == pad && orig[1][1] == '-' && orig[1] != "--";
    WholeName(pad);
    TooLong(spec.longopts.value, pad);
    OnlyCases(spec, spec.FirstOptions(), orig[1..], pad);
    hide Decode;
  }

  /** The first call reads the letter p, and the second what follows it. */
  lemma AfterLetter(spec: Spec, p: char, rest: string, more: seq<string>)
    requires HasMode(spec) && Only(spec) && p != '-' && Passes(spec.FirstOptions(), p)
    requires rest != "" && Unmatched(spec, NameOf([p] + rest))
    ensures var orig := ["", "-" + ([p] + rest)] + more;
            var c := OneCall(spec, spec.FirstOptions(), orig, 1, "");
            !c.over && c.k == 1 && c.next == rest
  {
    var next := [p] + rest;
    var orig := ["", "-" + next] + more;
    assert Opening(spec, orig[1]) == next && orig[1][1] == p && next[1..] == rest;
    OnlyCases(spec, spec.FirstOptions(), orig[1..], next);
    hide Decode;
  }

  /** What the second call answers is what it decodes. */
  lemma SecondReads(spec: Spec, orig: seq<string>, k: nat, next: string, opts: string)
    requires k < |orig| && IsOption(orig[k]) && orig[k] != "--" && HasMode(spec) && Only(spec)
    ensures next != "" ==> OneCall(spec, opts, orig, k, next).answer == Decode(spec, opts, orig[k..], next).answer
    ensures OneCall(spec, opts, orig, k, "").answer == Decode(spec, opts, orig[k..], Opening(spec, orig[k])).answer
  {
    hide Decode;
  }

  /** A letter that is no long option is looked up in the option string. */
  lemma OnlyShort(spec: Spec, opts: string, args: seq<string>, next: string)
    requires args != [] && next != "" && IsOption(args[0]) && args[0][1] != '-' && Only(spec)
    requires Unmatched(spec, NameOf(next))
    ensures Decode(spec, opts, args, next).answer
         == if next[0] in opts then DecodeShort(opts, args, next).answer else Plain(BAD_OPTION)
  {
    hide Decode, DecodeShort;
    OnlyCases(spec, opts, args, next);
  }

  /** What a letter in front of others is answered with. */
  lemma FirstShows(opts: string, c: char, args: seq<string>, rest: string)
    requires args != [] && rest != ""
    ensures var a, l := DecodeShort(opts, args, [c] + rest).answer, LetterOf(opts, c);
            a == if l == Unknown then Plain(BAD_OPTION).(optopt := Some(c))
                 else if l == Flag then Plain(c as int)
                 else Plain(c as int).(optarg := Some(rest))
  {
    assert ([c] + rest)[1..] == rest;
  }

  /** Names that begin with a letter and are too long. */
  lemma Padded(spec: Spec, start: string)
    requires Only(spec) && start != "" && (start[0] == '=' ==> Unmatched(spec, "")) && '=' !in start[1..]
    ensures Unmatched(spec, NameOf(start + Padding(spec.longopts.value)))
  {
    var name := start + Padding(spec.longopts.value);
    if start[0] == '=' {
      assert NameOf(name) == "";
    } else {
      WholeName(name);
      TooLong(spec.longopts.value, name);
    }
  }

  /** The second call reads `next` from an element that does not begin with two dashes. */
  ghost predicate Second(spec: Spec, orig: seq<string>, next: string)
    requires |orig| >= 1
  {
    var c := OneCall(spec, spec.FirstOptions(), orig, 1, "");
    && !c.over && c.k < |orig| && IsOption(orig[c.k]) && orig[c.k][1] != '-'
    && next != "" && Unmatched(spec, NameOf(next))
    && (c.next == next || (c.next == "" && Opening(spec, orig[c.k]) == next))
  }

  /** What the letters of the second call are answered with. */
  ghost function SecondAnswer(spec: Spec, opts: string, args: seq<string>, next: string): Answer
    requires args != [] && next != ""
  {
    if next[0] in opts then DecodeShort(opts, args, next).answer else Plain(BAD_OPTION)
  }

  lemma SecondShows(spec: Spec, orig: seq<string>, next: string, args: seq<string>)
    requires |orig| >= 1 && HasMode(spec) && Only(spec) && Second(spec, orig, next)
    requires args == orig[OneCall(spec, spec.FirstOptions(), orig, 1, "").k..]
    requires SecondAnswer(spec, spec.optstring, args, next) != SecondAnswer(spec, spec.FirstOptions(), args, next)
    ensures !Agrees(spec, orig)
  {
    hide OneCall, Decode, DecodeShort, Agrees, Unmatched;
    var c := OneCall(spec, spec.FirstOptions(), orig, 1, "");
    SecondReads(spec, orig, c.k, c.next, spec.optstring);
    SecondReads(spec, orig, c.k, c.next, spec.FirstOptions());
    OnlyShort(spec, spec.optstring, args, next);
    OnlyShort(spec, spec.FirstOptions(), args, next);
    SecondDiffers(spec, orig);
  }

  /** The letter c is read by the second call. */
  lemma CanRead(spec: Spec, c: char, rest: string, more: seq<string>) returns (orig: seq<string>, args: seq<string>)
    requires HasMode(spec) && Only(spec) && Unmatched(spec, NameOf([c] + rest))
    requires c == '-' ==>
               exists p :: p != '-' && Passes(spec.FirstOptions(), p) && Unmatched(spec, NameOf([p] + ([c] + rest)))
    ensures |orig| >= 1 && Second(spec, orig, [c] + rest)
    ensures args == orig[OneCall(spec, spec.FirstOptions(), orig, 1, "").k..] && args != [] && args[1..] == more
  {
    hide OneCall, Unmatched, Passes;
    var next := [c] + rest;
    if c == '-' {
      var p :| p != '-' && Passes(spec.FirstOptions(), p) && Unmatched(spec, NameOf([p] + next));
      orig := ["", "-" + ([p] + next)] + more;
      args := orig[1..];
      AfterLetter(spec, p, next, more);
      assert orig[1][1] == p;
    } else {
      orig := ["", "--" + Padding(spec.longopts.value)] + (["-" + next] + more);
      args := orig[2..];
      AfterLongName(spec, ["-" + next] + more);
      assert orig[2] == "-" + next && orig[2][1] == c && Opening(spec, orig[2]) == next;
    }
  }

  /** A letter can be read in front of the padding, or as the last of its element. */
  lemma Readable(spec: Spec, c: char)
    requires Only(spec) && Reached(spec, c) && c != '='
    ensures Unmatched(spec, NameOf([c] + Padding(spec.longopts.value)))
    ensures c == '-' ==>
              exists p ::
                && p != '-' && Passes(spec.FirstOptions(), p)
                && Unmatched(spec, NameOf([p] + ([c] + Padding(spec.longopts.value))))
  {
    hide Passes;
    var rest := Padding(spec.longopts.value);
    Padded(spec, [c]);
    if c == '-' {
      var p :| p != '-' && Passes(spec.FirstOptions(), p) && (p == '=' ==> Unmatched(spec, ""));
      Padded(spec, [p, c]);
      assert [p, c] + rest == [p] + ([c] + rest);
    }
  }

  lemma ReadableLast(spec: Spec, c: char)
    requires Only(spec) && ReachedLast(spec, c)
    ensures [c] + "" == [c]
    ensures c == '-' ==>
              exists p ::
                p != '-' && Passes(spec.FirstOptions(), p) && Unmatched(spec, NameOf([p] + ([c] + "")))
  {
    hide Passes;
    if c == '-' {
      var p :| p != '-' && Passes(spec.FirstOptions(), p) && Unmatched(spec, NameOf([p, '-']));
      assert [p] + ([c] + "") == [p, '-'];
    }
  }

  lemma LetterSeen(spec: Spec)
    requires HasMode(spec) && Only(spec) && ShowsLetter(spec)
    ensures exists orig :: |orig| >= 1 && !Agrees(spec, orig)
  {
    hide Agrees, Second, OneCall, DecodeShort, Unmatched, LetterOf, Passes, Reached, ReachedLast;
    var m, o, f := spec.optstring[0], spec.optstring, spec.FirstOptions();
    Known(o, m);
    Known(f, m);
    if HasArgument(LetterOf(o, m)) && HasArgument(LetterOf(f, m)) {
      OptionalSeen(spec, m);
    } else {
      KindSeen(spec, m);
    }
  }

  /** One string requires the argument, the other does not. */
  lemma OptionalSeen(spec: Spec, m: char)
    requires HasMode(spec) && Only(spec) && Unmatched(spec, NameOf([m])) && ReachedLast(spec, m)
    requires m in spec.optstring && m in spec.FirstOptions()
    requires var l, l' := LetterOf(spec.optstring, m), LetterOf(spec.FirstOptions(), m);
             HasArgument(l) && HasArgument(l') && l != l'
    ensures exists orig :: |orig| >= 1 && !Agrees(spec, orig)
  {
    hide Agrees, Second, OneCall, DecodeShort, Unmatched, LetterOf, Passes, ReachedLast, NameOf;
    ReadableLast(spec, m);
    var orig, args := CanRead(spec, m, "", ["x"]);
    assert args[1] == args[1..][0];
    LetterShows(spec.optstring, m, args);
    LetterShows(spec.FirstOptions(), m, args);
    SecondShows(spec, orig, [m], args);
  }

  lemma KindSeen(spec: Spec, m: char)
    requires HasMode(spec) && Only(spec) && m == spec.optstring[0] && Reached(spec, m)
    requires m in spec.FirstOptions() <==> LetterOf(spec.FirstOptions(), m) != Unknown
    requires var l, l' := LetterOf(spec.optstring, m), LetterOf(spec.FirstOptions(), m);
             l != Unknown && l != l' && !(HasArgument(l) && HasArgument(l'))
    ensures exists orig :: |orig| >= 1 && !Agrees(spec, orig)
  {
    hide Agrees, Second, OneCall, DecodeShort, Unmatched, LetterOf, Passes, Reached, NameOf;
    var rest := Padding(spec.longopts.value);
    Readable(spec, m);
    var orig, args := CanRead(spec, m, rest, []);
    FirstShows(spec.optstring, m, args, rest);
    FirstShows(spec.FirstOptions(), m, args, rest);
    SecondShows(spec, orig, [m] + rest, args);
  }

  lemma ColonSeen(spec: Spec, c: char)
    requires HasMode(spec) && Only(spec) && !ShowsLetter(spec) && AsksForColon(spec.FirstOptions())
    requires LetterOf(spec.FirstOptions(), c) == Required && Unmatched(spec, NameOf([c])) && ReachedLast(spec, c)
    ensures exists orig :: |orig| >= 1 && !Agrees(spec, orig)
  {
    hide Agrees, Second, OneCall, DecodeShort, Unmatched, LetterOf, Passes, ReachedLast, ShowsLetter, NameOf;
    RequiredInBoth(spec, c);
    ReadableLast(spec, c);
    var orig, args := CanRead(spec, c, "", []);
    assert args[1..] == [] && args == [args[0]];
    LetterMisses(spec.optstring, c, args[0]);
    LetterMisses(spec.FirstOptions(), c, args[0]);
    SecondShows(spec, orig, [c], args);
  }

  lemma RequiredInBoth(spec: Spec, c: char)
    requires HasMode(spec) && Only(spec) && !ShowsLetter(spec)
    requires LetterOf(spec.FirstOptions(), c) == Required && Unmatched(spec, NameOf([c])) && ReachedLast(spec, c)
    ensures LetterOf(spec.optstring, c) == Required && c in spec.optstring && c in spec.FirstOptions()
  {
    hide Unmatched;
    assert Reached(spec, c) by {
      if c == '-' {
        var p :| p != '-' && Passes(spec.FirstOptions(), p) && Unmatched(spec, NameOf([p, '-']));
        assert p == '=' ==> NameOf([p, '-']) == "";
      }
    }
    Kinds(spec, c);
    Known(spec.FirstOptions(), c);
  }

  lemma LongSeen(spec: Spec, k: nat, n: nat)
    requires HasMode(spec) && Only(spec) && AsksForColon(spec.FirstOptions())
    requires k < |spec.longopts.value| && 0 < n <= |spec.longopts.value[k].name|
    requires IsRequired(spec.longopts.value, k, n)
    ensures exists orig :: |orig| >= 1 && !Agrees(spec, orig)
  {
    hide Agrees, OneCall, Decode;
    var name, o, f := spec.longopts.value[k].name[..n], spec.optstring, spec.FirstOptions();
    var orig := ["", "--" + Padding(spec.longopts.value)] + ["--" + name];
    AfterLongName(spec, ["--" + name]);
    assert Opening(spec, orig[2]) == name && orig[2..] == [orig[2]];
    WholeName(name);
    SecondReads(spec, orig, 2, "", o);
    SecondReads(spec, orig, 2, "", f);
    OnlyCases(spec, o, orig[2..], name);
    OnlyCases(spec, f, orig[2..], name);
    SecondDiffers(spec, orig);
  }

  /** All runs are the documented ones if and only if the option string is steady. */
  lemma ModeCharacter(spec: Spec)
    ensures Steady(spec) <==> forall orig: seq<string> | |orig| >= 1 :: Agrees(spec, orig)
  {
    hide Agrees;
    if Steady(spec) {
      forall orig: seq<string> | |orig| >= 1
        ensures Agrees(spec, orig)
      {
        SteadyAgrees(spec, orig);
      }
    } else {
      UnsteadyDiffers(spec);
    }
  }

  lemma SteadyAgrees(spec: Spec, orig: seq<string>)
    requires |orig| >= 1 && Steady(spec)
    ensures Agrees(spec, orig)
  {
    hide Agrees, ShowsLetter, ShowsColon, LetterOf, SomeRequired;
    if HasMode(spec) && Only(spec) {
      OnlyAgrees(spec, orig);
    } else {
      HarmlessAgrees(spec, orig);
    }
  }

  lemma UnsteadyDiffers(spec: Spec)
    requires !Steady(spec)
    ensures exists orig: seq<string> :: |orig| >= 1 && !Agrees(spec, orig)
  {
    hide Agrees, LetterOf, Unmatched, ReachedLast, IsRequired;
    var m, o, f := spec.optstring[0], spec.optstring, spec.FirstOptions();
    if !Only(spec) {
      if LetterOf(o, m) != LetterOf(f, m) {
        LetterDiffers(spec);
      } else if c :| LetterOf(f, c) == Required {
        assert o == [m] + f;
        if c != m {
          Shifted(m, f, c);
        }
        ColonDiffers(spec, c);
      } else {
        var opts := spec.longopts.value;
        var k, n :| 0 <= k < |opts| && 0 < n <= |opts[k].name| && IsRequired(opts, k, n);
        LongDiffers(spec, k, n);
      }
    } else if ShowsLetter(spec) {
      LetterSeen(spec);
    } else if NamesRequired(spec.longopts.value) {
      var opts := spec.longopts.value;
      var k, n :| 0 <= k < |opts| && 0 < n <= |opts[k].name| && IsRequired(opts, k, n);
      LongSeen(spec, k, n);
    } else {
      var c :| LetterOf(f, c) == Required && Unmatched(spec, NameOf([c])) && ReachedLast(spec, c);
      ColonSeen(spec, c);
    }
  }

  /** The calls on "-a+" with the option string "+a". */
  lemma PlusCalls(spec: Spec, orig: seq<string>)
    requires spec == Spec("+a", None, false, false) && orig == ["lspci", "-a+"]
    ensures spec.FirstOptions() == "a"
    ensures var c := OneCall(spec, "a", orig, 1, "");
            c.answer == Plain('a' as int) && c.k == 1 && c.next == "+" && !c.over
    ensures forall opts | opts == "+a" || opts == "a" ::
              var c := OneCall(spec, opts, orig, 1, "+");
              && c.answer == (if opts == "+a" then Plain('+' as int) else Plain(BAD_OPTION).(optopt := Some('+')))
              && c.k == 2 && c.next == "" && !c.over
    ensures forall opts {:trigger OneCall(spec, opts, orig, 2, "")} ::
              OneCall(spec, opts, orig, 2, "").over && OneCall(spec, opts, orig, 2, "").answer == Plain(EOF)
  {
    assert spec.FirstOptions() == "a" && Opening(spec, orig[1]) == "a+";
    assert IndexOf("a", 'a') == 0 && IndexOf("a", '+') == 1 && IndexOf("+a", '+') == 0;
    assert Decode(spec, "a", orig[1..], "a+") == Decoded(Plain('a' as int), 0, "+");
  }

  /** With "+a" the second letter of "-a+" is no option, and is answered as one. */
  lemma PlusIsFound()
    ensures var spec, orig := Spec("+a", None, false, false), ["lspci", "-a+"];
            && Run(spec, spec.FirstOptions(), orig, 1, "").0 == [Plain('a' as int), Plain('+' as int), Plain(EOF)]
            && Documented(spec, orig, 1, "").0
            == [Plain('a' as int), Plain(BAD_OPTION).(optopt := Some('+')), Plain(EOF)]
  {
    hide OneCall;
    var spec, orig := Spec("+a", None, false, false), ["lspci", "-a+"];
    PlusCalls(spec, orig);
    assert Run(spec, "+a", orig, 2, "").0 == [Plain(EOF)] && Documented(spec, orig, 2, "").0 == [Plain(EOF)];
    assert Run(spec, "+a", orig, 1, "+").0 == [Plain('+' as int), Plain(EOF)];
  }

  /** With "+:a:" the missing argument of the second option is answered with 0. */
  lemma ColonIsHidden()
    ensures var spec, orig := Spec("+:a:", None, false, false), ["lspci", "-ax", "-a"];
            && Run(spec, spec.FirstOptions(), orig, 1, "").0[1] == Plain(BAD_OPTION).(optopt := Some('a'))
            && Documented(spec, orig, 1, "").0[1] == Plain(':' as int).(optopt := Some('a'))
  {
    var spec, orig := Spec("+:a:", None, false, false), ["lspci", "-ax", "-a"];
    assert spec.FirstOptions() == ":a:" && Opening(spec, orig[1]) == "ax" && Opening(spec, orig[2]) == "a";
    assert IndexOf(":a:", 'a') == 1 && IndexOf("+:a:", 'a') == 2;
    var c := OneCall(spec, ":a:", orig, 1, "");
    assert !c.over && c.k == 2 && c.next == "";
    assert OneCall(spec, "+:a:", orig, 2, "").answer == Plain(BAD_OPTION).(optopt := Some('a'));
    assert OneCall(spec, ":a:", orig, 2, "").answer == Plain(':' as int).(optopt := Some('a'));
    hide OneCall;
    assert Run(spec, "+:a:", orig, 2, "").0[0] == Plain(BAD_OPTION).(optopt := Some('a'));
    assert Documented(spec, orig, 2, "").0[0] == Plain(':' as int).(optopt := Some('a'));
  }
}
