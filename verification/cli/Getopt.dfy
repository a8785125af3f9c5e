/** compat/getopt.c: the option scanner that permutes argv in place.

    Between calls the array holds, after the program name, the options read before the
    last group of non-options, that group, the options read since, and the unread rest;
    `tags` says of each argument read whether it belongs to an option. */
module Getopt {
  import opened Wrappers
  import opened GetoptSpec

  /** The layout of the array, against the original arguments. */
  ghost predicate Layout(argv: seq<string>, orig: seq<string>, tags: seq<bool>, first: nat, last: nat, optind: nat) {
    && |argv| == |orig| && 1 <= first <= last <= optind <= |orig| && |tags| == optind - 1
    && argv[0] == orig[0] && argv[optind..] == orig[optind..]
    && argv[1..first] + argv[last..optind] == Pick(orig[1..optind], tags, true)
    && argv[first..last] == Pick(orig[1..optind], tags, false)
  }

  /** [first, last) and [last, optind) trade places. */
  function Exchanged(argv: seq<string>, first: nat, last: nat, optind: nat): (r: seq<string>)
    requires first <= last <= optind <= |argv|
    ensures |r| == |argv|
  {
    argv[..first] + argv[last..optind] + argv[first..last] + argv[optind..]
  }

  function Reversed(s: seq<string>): (r: seq<string>)
    ensures |r| == |s| && forall i | 0 <= i < |s| :: r[i] == s[|s| - 1 - i]
  {
    seq(|s|, i requires 0 <= i < |s| => s[|s| - 1 - i])
  }

  /** The elements from lo up to hi in reverse order, if there are any. */
  function Turned(argv: seq<string>, lo: nat, hi: nat): (r: seq<string>)
    requires hi <= |argv|
    ensures |r| == |argv|
  {
    seq(|argv|, i requires 0 <= i < |argv| => if lo <= i < hi then argv[lo + hi - 1 - i] else argv[i])
  }

  /** The elements outside of [first, last] are in their reverse places. */
  ghost predicate Swapped(now: seq<string>, was: seq<string>, lo: nat, hi: nat, first: nat, last: int) {
    && |now| == |was| && hi <= |was|
    && forall i {:trigger now[i]} | 0 <= i < |was| ::
         now[i] == if lo <= i < hi && (i < first || i > last) then was[lo + hi - 1 - i] else was[i]
  }

  lemma SwapNext(now: seq<string>, was: seq<string>, lo: nat, hi: nat, first: nat, last: nat)
    requires lo <= first < last < hi && first + last == lo + hi - 1 && Swapped(now, was, lo, hi, first, last)
    ensures Swapped(now[first := now[last]][last := now[first]], was, lo, hi, first + 1, last - 1)
  {
    var next := now[first := now[last]][last := now[first]];
    assert now[first] == was[first] && now[last] == was[last];
    forall i | 0 <= i < |was|
      ensures next[i] == if lo <= i < hi && (i <= first || i >= last) then was[lo + hi - 1 - i] else was[i]
    {
      if i == first {
        assert lo + hi - 1 - i == last && next[i] == was[last];
      } else if i == last {
        assert lo + hi - 1 - i == first && next[i] == was[first];
      } else {
        assert next[i] == now[i];
      }
    }
  }

  lemma AllSwapped(now: seq<string>, was: seq<string>, lo: nat, hi: nat, first: nat, last: int)
    requires first >= last && first + last == lo + hi - 1 && Swapped(now, was, lo, hi, first, last)
    ensures now == Turned(was, lo, hi)
  {
    forall i | 0 <= i < |was|
      ensures now[i] == Turned(was, lo, hi)[i]
    {
      if lo <= i < hi && !(i < first || i > last) {
        assert lo + hi - 1 - i == i;
      }
    }
  }

  /** One of the three loops of the exchange. */
  method Reverse(argv: array<string>, lo: nat, hi: nat)
    requires hi <= argv.Length
    modifies argv
    ensures argv[..] == Turned(old(argv[..]), lo, hi)
  {
    hide Turned;
    ghost var was := argv[..];
    var first, last := lo, hi - 1;
    while first < last
      invariant lo <= first && last < hi && first + last == lo + hi - 1
      invariant Swapped(argv[..], was, lo, hi, first, last)
    {
      SwapNext(argv[..], was, lo, hi, first, last);
      argv[first], argv[last] := argv[last], argv[first];
      first, last := first + 1, last - 1;
    }
    AllSwapped(argv[..], was, lo, hi, first, last);
  }

  /** Reversing all, and then each part, exchanges the parts. */
  lemma ThreeReversals(argv: seq<string>, first: nat, last: nat, optind: nat)
    requires first <= last <= optind <= |argv|
    ensures var mid := first + optind - last;
            Turned(Turned(Turned(argv, first, optind), first, mid), mid, optind) == Exchanged(argv, first, last, optind)
  {
    hide Turned;
    var x, y := argv[first..last], argv[last..optind];
    var a, d := argv[..first], argv[optind..];
    var rx, ry := Reversed(x), Reversed(y);
    assert argv == a + (x + y) + d && Reversed(x + y) == ry + rx && Reversed(ry) == y && Reversed(rx) == x;
    hide Reversed;
    TurnedPart(argv, a, x + y, d);
    assert a + (ry + rx) + d == a + ry + (rx + d);
    TurnedPart(a + ry + (rx + d), a, ry, rx + d);
    assert a + y + (rx + d) == (a + y) + rx + d;
    TurnedPart((a + y) + rx + d, a + y, rx, d);
  }

  /** What the three loops do in either case. */
  lemma ExchangeTurns(argv: seq<string>, first: nat, last: nat, optind: nat)
    requires first <= last <= |argv| && first <= optind <= |argv|
    requires last <= optind || (optind == first && last <= 2 * first)
    ensures var mid := first + optind - last;
            Turned(Turned(Turned(argv, first, optind), first, mid), mid, optind)
            == if last <= optind then Exchanged(argv, first, last, optind) else Turned(argv, mid, optind)
  {
    if last <= optind {
      ThreeReversals(argv, first, last, optind);
    } else {
      NothingTurned(argv, first, first);
      NothingTurned(argv, first, first + optind - last);
    }
    hide Turned, Exchanged;
  }

  lemma NothingTurned(argv: seq<string>, lo: nat, hi: nat)
    requires hi <= lo <= |argv|
    ensures Turned(argv, lo, hi) == argv
  {
  }

  lemma TurnedPart(s: seq<string>, a: seq<string>, b: seq<string>, c: seq<string>)
    requires s == a + b + c
    ensures Turned(s, |a|, |a| + |b|) == a + Reversed(b) + c
  {
    assert s[..|a|] == a && s[|a|..|a| + |b|] == b && s[|a| + |b|..] == c;
  }

  /** The layout in front of one more call after the end of a scan: the group of non-options
      lies behind optind, and the exchange is going to reverse as many elements in front of
      optind. `orig` is the array after that, where these elements are the group. */
  ghost predicate Upside(argv: seq<string>, orig: seq<string>, tags: seq<bool>, first: nat, last: nat, optind: nat) {
    && |argv| == |orig| == last && optind == first < last < 2 * first
    && orig == Turned(argv, 2 * first - last, first)
    && tags == Repeat(true, 2 * first - last - 1) + Repeat(false, last - first)
  }

  // --------------------------------------------------------- steps of the layout

  lemma UpsideBounds(argv: seq<string>, orig: seq<string>, tags: seq<bool>, first: nat, last: nat, optind: nat)
    requires Upside(argv, orig, tags, first, last, optind)
    ensures |argv| == |orig| && 1 <= first == optind < last == |orig| < 2 * first && |tags| == optind - 1
    ensures argv[optind..] == orig[optind..] && (optind < |orig| ==> argv[optind] == orig[optind])
  {
  }

  lemma UpsideTurns(argv: seq<string>, orig: seq<string>, tags: seq<bool>, first: nat, last: nat, optind: nat)
    requires Upside(argv, orig, tags, first, last, optind)
    ensures |argv| == |orig| == last && optind == first < last < 2 * first
    ensures orig == Turned(argv, 2 * first - last, first) && Layout(orig, orig, tags, 2 * first - last, first, first)
  {
    hide Layout, Turned, Repeat;
    LayoutPlain(orig, 2 * first - last, first);
  }

  lemma LayoutNone(argv: seq<string>)
    requires |argv| >= 1
    ensures Layout(argv, argv, [], 1, 1, 1)
  {
    assert argv[1..1] == [];
  }

  /** Some options, then some non-options, as they stand. */
  lemma LayoutPlain(argv: seq<string>, first: nat, optind: nat)
    requires 1 <= first <= optind <= |argv|
    ensures Layout(argv, argv, Repeat(true, first - 1) + Repeat(false, optind - first), first, optind, optind)
  {
    hide Layout, Repeat;
    LayoutNone(argv);
    LayoutRead(argv, argv, [], 1, 1, 1, true, first - 1);
    assert [] + Repeat(true, first - 1) == Repeat(true, first - 1);
    LayoutRestart(argv, argv, Repeat(true, first - 1), 1, 1, first);
    LayoutRead(argv, argv, Repeat(true, first - 1), first, first, first, false, optind - first);
  }

  lemma LayoutBounds(argv: seq<string>, orig: seq<string>, tags: seq<bool>, first: nat, last: nat, optind: nat)
    requires Layout(argv, orig, tags, first, last, optind)
    ensures |argv| == |orig| && 1 <= first <= last <= optind <= |orig| && |tags| == optind - 1
    ensures argv[optind..] == orig[optind..] && (optind < |orig| ==> argv[optind] == orig[optind])
  {
    if optind < |orig| {
      assert argv[optind..][0] == orig[optind..][0];
    }
  }

  /** With no group of skipped non-options, one may start anywhere. */
  lemma LayoutRestart(argv: seq<string>, orig: seq<string>, tags: seq<bool>, first: nat, last: nat, optind: nat)
    requires Layout(argv, orig, tags, first, last, optind) && first == last
    ensures Layout(argv, orig, tags, optind, optind, optind)
  {
    assert argv[1..first] + argv[last..optind] == argv[1..optind] + argv[optind..optind];
  }

  lemma LayoutExchange(argv: seq<string>, orig: seq<string>, tags: seq<bool>, first: nat, last: nat, optind: nat)
    requires Layout(argv, orig, tags, first, last, optind)
    ensures Layout(Exchanged(argv, first, last, optind), orig, tags, first + optind - last, optind, optind)
  {
    var now := Exchanged(argv, first, last, optind);
    assert now[1..first + optind - last] + now[optind..optind] == argv[1..first] + argv[last..optind];
    assert now[first + optind - last..optind] == argv[first..last];
    assert now[optind..] == argv[optind..];
  }

  /** n arguments are read; non-options join the last group, which must be at the end. */
  lemma LayoutRead(argv: seq<string>, orig: seq<string>, tags: seq<bool>, first: nat, last: nat, optind: nat, b: bool,
                   n: nat)
    requires Layout(argv, orig, tags, first, last, optind) && optind + n <= |orig| && (!b ==> last == optind)
    ensures Layout(argv, orig, tags + Repeat(b, n), first, if b then last else optind + n, optind + n)
  {
    hide Pick;
    var more := orig[optind..optind + n];
    Unread(argv, orig, optind, n);
    PickRead(orig, tags, optind, b, n, true);
    PickRead(orig, tags, optind, b, n, false);
    hide Pick;
    Middle(argv, last, optind, n);
    if b {
      assert argv[1..first] + (argv[last..optind] + more) == argv[1..first] + argv[last..optind] + more;
    } else {
      Middle(argv, first, optind, n);
      assert argv[1..first] + argv[optind + n..optind + n] == argv[1..first] + argv[last..optind];
    }
  }

  lemma Middle(argv: seq<string>, from: nat, mid: nat, n: nat)
    requires from <= mid && mid + n <= |argv|
    ensures argv[from..mid + n] == argv[from..mid] + argv[mid..mid + n]
  {
  }

  lemma PickRead(orig: seq<string>, tags: seq<bool>, optind: nat, b: bool, n: nat, c: bool)
    requires 1 <= optind && optind + n <= |orig| && |tags| == optind - 1
    ensures Pick(orig[1..optind + n], tags + Repeat(b, n), c)
         == Pick(orig[1..optind], tags, c) + if b == c then orig[optind..optind + n] else []
  {
    var more := orig[optind..optind + n];
    assert orig[1..optind + n] == orig[1..optind] + more;
    PickAppend(orig[1..optind], tags, more, Repeat(b, n), c);
    PickAll(more, b);
  }

  lemma Unread(argv: seq<string>, orig: seq<string>, optind: nat, n: nat)
    requires optind + n <= |argv| == |orig| && argv[optind..] == orig[optind..]
    ensures argv[optind..optind + n] == orig[optind..optind + n] && argv[optind + n..] == orig[optind + n..]
  {
    assert forall i | optind <= i < |argv| ::
             argv[i] == argv[optind..][i - optind] == orig[optind..][i - optind] == orig[i];
  }

  /** The options stand in front of optind, everything else from there on, each in the
      original order. */
  ghost predicate EndState(argv: seq<string>, orig: seq<string>, tags: seq<bool>, optind: nat) {
    && |argv| == |orig| >= 1 && |tags| == |orig| - 1 && 1 <= optind <= |orig|
    && argv[0] == orig[0]
    && argv[1..optind] == Pick(orig[1..], tags, true)
    && argv[optind..] == Pick(orig[1..], tags, false)
  }

  /** At the end of the array, optind moves back to the non-options if there are any. */
  lemma LayoutEnds(argv: seq<string>, orig: seq<string>, tags: seq<bool>, first: nat, last: nat)
    requires Layout(argv, orig, tags, first, last, |orig|) && (first == last || last == |orig|)
    ensures EndState(argv, orig, tags, if first != last then first else |orig|) && 1 <= first <= |orig|
  {
    hide Pick;
    assert orig[1..|orig|] == orig[1..];
    if first != last {
      assert argv[first..] == argv[first..last] && argv[last..last] == [];
    } else {
      assert argv[1..first] + argv[last..] == argv[1..];
    }
  }

  /** Without a group, all elements in front of optind may count as options. */
  lemma LayoutRests(argv: seq<string>, first: nat, optind: nat)
    requires 1 <= first <= optind <= |argv|
    ensures Layout(argv, argv, Repeat(true, optind - 1), first, first, optind)
  {
    PickAll(argv[1..optind], true);
    assert argv[1..first] + argv[first..optind] == argv[1..optind];
  }

  lemma UpsideAgain(argv: seq<string>, first: nat, last: nat)
    requires first < last < 2 * first && |argv| == last
    ensures var lo := 2 * first - last; var o := Turned(argv, lo, first);
            && Upside(argv, o, Repeat(true, lo - 1) + Repeat(false, first - lo), first, last, first)
            && forall i | first <= i < last :: o[i] == argv[i]
  {
  }

  lemma RestCall(spec: Spec, o: seq<string>, k: nat)
    requires k <= |o| && (k < |o| ==> spec.Mode() == RequireOrder && !IsOption(o[k]))
    ensures OneCall(spec, spec.optstring, o, k, "") == Call(Plain(EOF), |o|, "", Repeat(false, |o| - k), true)
  {
  }

  /** What the call between two elements meets behind the non-options. */
  lemma CallCases(spec: Spec, opts: string, orig: seq<string>, k: nat)
    requires k <= |orig|
    ensures var c := OneCall(spec, opts, orig, k, "");
            var j := k + if spec.Mode() == Permute then Skipped(orig[k..]) else 0;
            && (j == |orig| ==> c == Call(Plain(EOF), |orig|, "", Repeat(false, j - k), true))
            && (j < |orig| ==>
                  if orig[j] == "--" then
                    && c.tags == Repeat(false, j - k) + [true] + Repeat(false, |orig| - j - 1)
                    && c.over && c.answer == Plain(EOF) && IsOption(orig[j])
                  else if IsOption(orig[j]) then
                    c == Advance(spec, opts, orig, j, Opening(spec, orig[j]), Repeat(false, j - k))
                  else spec.Mode() != Permute)
  {
    hide Decode, Repeat;
    if spec.Mode() == Permute {
      var n := Skipped(orig[k..]);
      if n < |orig| - k {
        assert orig[k..][n] == orig[k + n];
      }
    }
  }

  /** A call that passes all that is left. */
  lemma GroupCall(spec: Spec, o: seq<string>, lo: nat, k: nat)
    requires 1 <= lo <= k <= |o| && spec.Mode() == Permute && forall i | k <= i < |o| :: !IsOption(o[i])
    ensures OneCall(spec, spec.optstring, o, k, "") == Call(Plain(EOF), |o|, "", Repeat(false, |o| - k), true)
    ensures Repeat(true, lo - 1) + Repeat(false, k - lo) + Repeat(false, |o| - k)
         == Repeat(true, lo - 1) + Repeat(false, |o| - lo)
  {
    hide IsOption;
    AllSkipped(o[k..]);
  }

  lemma AllSkipped(args: seq<string>)
    requires forall i | 0 <= i < |args| :: !IsOption(args[i])
    ensures Skipped(args) == |args|
  {
  }

  /** Where the scan ends when the arguments are options up to k and non-options from there on. */
  lemma SameEnd(argv: seq<string>, o: seq<string>, k: nat, optind: nat)
    requires 1 <= k <= |o| && EndState(argv, o, Repeat(true, k - 1) + Repeat(false, |o| - k), optind)
    ensures argv == o && optind == k
  {
    PickBoth(o[1..k], o[k..]);
    Joined(o, 1, k);
    hide Pick, Repeat;
    SameParts(argv, o, k, optind);
  }

  lemma Joined(s: seq<string>, lo: nat, k: nat)
    requires lo <= k <= |s|
    ensures s[lo..] == s[lo..k] + s[k..]
  {
  }

  lemma PickBoth(x: seq<string>, y: seq<string>)
    ensures Pick(x + y, Repeat(true, |x|) + Repeat(false, |y|), true) == x
    ensures Pick(x + y, Repeat(true, |x|) + Repeat(false, |y|), false) == y
  {
    hide Pick;
    PickAll(x, true);
    PickAll(y, false);
    PickAppend(x, Repeat(true, |x|), y, Repeat(false, |y|), true);
    PickAppend(x, Repeat(true, |x|), y, Repeat(false, |y|), false);
  }

  lemma SameParts(argv: seq<string>, o: seq<string>, k: nat, optind: nat)
    requires 1 <= k <= |o| == |argv| && 1 <= optind <= |argv| && argv[0] == o[0]
    requires argv[1..optind] == o[1..k] && argv[optind..] == o[k..]
    ensures argv == o && optind == k
  {
    assert forall i | 1 <= i < k :: argv[i] == argv[1..optind][i - 1] == o[1..k][i - 1] == o[i];
    assert forall i | k <= i < |o| :: argv[i] == argv[optind..][i - k] == o[k..][i - k] == o[i];
  }

  class Scanner {
    const spec: Spec
    const argv: array<string>
    var optind: nat
    /** What is left of a begun element, empty when there is none. */
    var nextchar: string
    var ordering: Ordering
    var firstNonopt: nat
    var lastNonopt: nat
    ghost var orig: seq<string>
    ghost var tags: seq<bool>

    constructor (spec: Spec, argv: array<string>)
      requires argv.Length >= 1
      ensures this.spec == spec && this.argv == argv && orig == argv[..] && optind == 0 && Valid() && tags == []
    {
      this.spec, this.argv, orig := spec, argv, argv[..];
      optind, nextchar, ordering, firstNonopt, lastNonopt, tags := 0, "", Permute, 0, 0, [];
    }

    ghost predicate Valid()
      reads this, argv
    {
      && argv.Length == |orig| && |orig| >= 1
      && if optind == 0 then argv[..] == orig && tags == [] else Begun() || Turning()
    }

    ghost predicate Begun()
      reads this, argv
    {
      && Layout(argv[..], orig, tags, firstNonopt, lastNonopt, optind)
      && ordering == spec.Mode() && (ordering != Permute ==> firstNonopt == lastNonopt)
      && (nextchar != "" ==> optind < |orig| && IsOption(orig[optind]))
    }

    /** In front of one more call, whose exchange is going to turn elements around. */
    ghost predicate Turning()
      reads this, argv
    {
      && Upside(argv[..], orig, tags, firstNonopt, lastNonopt, optind)
      && ordering == spec.Mode() == Permute && nextchar == ""
    }

    /** The scan is over. Either no group of non-options is left, and optind stands at the
        end or at the non-option that ended the scan, or it stands at such a group. */
    ghost predicate Ended()
      reads this, argv
    {
      && EndState(argv[..], orig, tags, optind) && nextchar == "" && ordering == spec.Mode()
      && if Rests() then
           && 1 <= firstNonopt <= optind
           && (optind == argv.Length || (ordering == RequireOrder && !IsOption(argv[optind])))
         else optind == firstNonopt < lastNonopt == argv.Length
    }

    predicate Rests()
      reads this
    {
      firstNonopt == lastNonopt
    }

    /** Position and begun element at which the next call starts to read. */
    ghost function At(): nat
      reads this
    {
      if optind == 0 then 1 else optind
    }

    ghost function Next(): string
      reads this
    {
      if optind == 0 then "" else nextchar
    }

    ghost function Opts(): string
      reads this
    {
      if optind == 0 then spec.FirstOptions() else spec.optstring
    }

    /** The exchange of compat/getopt.c. After the end of a scan, optind stands in front of
        the group: then nothing trades places, and a group of that size in front of optind
        is reversed. */
    method Exchange()
      requires firstNonopt <= lastNonopt <= argv.Length && firstNonopt <= optind <= argv.Length
      requires lastNonopt <= optind || (optind == firstNonopt && lastNonopt <= 2 * firstNonopt)
      modifies argv, `firstNonopt, `lastNonopt
      ensures firstNonopt == old(firstNonopt) + optind - old(lastNonopt) && lastNonopt == optind
      ensures argv[..] == if old(lastNonopt) <= optind
                          then Exchanged(old(argv[..]), old(firstNonopt), old(lastNonopt), optind)
                          else Turned(old(argv[..]), firstNonopt, optind)
    {
      hide Turned, Exchanged;
      ExchangeTurns(argv[..], firstNonopt, lastNonopt, optind);
      var first := firstNonopt;
      Reverse(argv, first, optind);
      firstNonopt := first + (optind - lastNonopt);
      Reverse(argv, first, firstNonopt);
      lastNonopt := optind;
      Reverse(argv, firstNonopt, lastNonopt);
    }

    /** Options read since the last group of non-options move in front of it. */
    method Settle()
      requires Layout(argv[..], orig, tags, firstNonopt, lastNonopt, optind)
               || Upside(argv[..], orig, tags, firstNonopt, lastNonopt, optind)
      modifies argv, `firstNonopt, `lastNonopt
      ensures Layout(argv[..], orig, tags, firstNonopt, optind, optind)
      ensures lastNonopt == optind || firstNonopt == optind
    {
      hide Layout, Exchanged, Turned, Repeat, Upside;
      if Upside(argv[..], orig, tags, firstNonopt, lastNonopt, optind) {
        UpsideTurns(argv[..], orig, tags, firstNonopt, lastNonopt, optind);
      } else {
        LayoutBounds(argv[..], orig, tags, firstNonopt, lastNonopt, optind);
      }
      if firstNonopt != lastNonopt && lastNonopt != optind {
        if lastNonopt < optind {
          LayoutExchange(argv[..], orig, tags, firstNonopt, lastNonopt, optind);
        }
        Exchange();
      } else if lastNonopt != optind {
        LayoutRestart(argv[..], orig, tags, firstNonopt, lastNonopt, optind);
        firstNonopt := optind;
      }
    }

    /** Passes the non-options at optind. */
    method PassNonOptions()
      requires optind <= argv.Length == |orig| && argv[optind..] == orig[optind..]
      modifies `optind
      ensures optind == old(optind) + Skipped(orig[old(optind)..])
    {
      ghost var a, k := argv[..], optind;
      while optind < argv.Length && !IsOption(argv[optind])
        invariant k <= optind <= argv.Length && argv[..] == a
        invariant Skipped(orig[k..]) == optind - k + Skipped(orig[optind..])
      {
        Unread(a, orig, k, optind - k);
        assert argv[optind] == a[optind..][0] == orig[optind..][0] && orig[optind..][1..] == orig[optind + 1..];
        optind := optind + 1;
      }
      if optind < argv.Length {
        Unread(a, orig, k, optind - k);
        assert argv[optind] == a[optind..][0] == orig[optind..][0];
      }
    }

    /** In Permute mode: after that, the last group grows by the non-options that follow. */
    method SkipNonOptions()
      requires nextchar == "" && ordering == Permute && (Begun() || Turning())
      modifies argv, `optind, `firstNonopt, `lastNonopt, `tags
      ensures Begun() && lastNonopt == optind
      ensures 1 <= old(optind) <= |orig| && optind == old(optind) + Skipped(orig[old(optind)..])
      ensures tags == old(tags) + Repeat(false, optind - old(optind))
    {
      hide Layout, Upside, Skipped, Repeat;
      LivelyFacts();
      Settle();
      ghost var k := optind;
      LayoutBounds(argv[..], orig, tags, firstNonopt, optind, optind);
      PassNonOptions();
      LayoutRead(argv[..], orig, tags, firstNonopt, k, k, false, optind - k);
      tags := tags + Repeat(false, optind - k);
      lastNonopt := optind;
    }

    /** At the special element "--": it counts as an option, and moves in front of the
        non-options before it. */
    method PassMarker()
      requires Layout(argv[..], orig, tags, firstNonopt, lastNonopt, optind) && optind < argv.Length
      requires firstNonopt == lastNonopt || lastNonopt == optind
      modifies argv, `optind, `firstNonopt, `lastNonopt, `tags
      ensures Layout(argv[..], orig, tags, firstNonopt, optind, optind) && optind == old(optind) + 1
      ensures tags == old(tags) + [true]
    {
      hide Layout, Exchanged, Skipped, IsOption;
      LayoutBounds(argv[..], orig, tags, firstNonopt, lastNonopt, optind);
      LayoutRead(argv[..], orig, tags, firstNonopt, lastNonopt, optind, true, 1);
      assert Repeat(true, 1) == [true];
      tags := tags + [true];
      optind := optind + 1;
      if firstNonopt != lastNonopt && lastNonopt != optind {
        LayoutExchange(argv[..], orig, tags, firstNonopt, lastNonopt, optind);
        Exchange();
      } else if firstNonopt == lastNonopt {
        LayoutRestart(argv[..], orig, tags, firstNonopt, lastNonopt, optind);
        firstNonopt := optind;
      }
    }

    /** After that, everything else is skipped like a non-option. */
    method EndOfOptions()
      requires Layout(argv[..], orig, tags, firstNonopt, lastNonopt, optind) && optind < argv.Length
      requires firstNonopt == lastNonopt || lastNonopt == optind
      modifies argv, `optind, `firstNonopt, `lastNonopt, `tags
      ensures Layout(argv[..], orig, tags, firstNonopt, lastNonopt, optind) && optind == lastNonopt == argv.Length
      ensures tags == old(tags) + [true] + Repeat(false, argv.Length - old(optind) - 1)
    {
      hide Layout, Skipped, IsOption;
      PassMarker();
      ghost var k := optind;
      LayoutBounds(argv[..], orig, tags, firstNonopt, k, k);
      LayoutRead(argv[..], orig, tags, firstNonopt, k, k, false, argv.Length - k);
      tags := tags + Repeat(false, argv.Length - k);
      lastNonopt := argv.Length;
      optind := argv.Length;
    }

    /** strchr on the option string. */
    method MyIndex(str: string, chr: char) returns (i: nat)
      ensures i == IndexOf(str, chr)
    {
      i := 0;
      while i < |str| && str[i] != chr
        invariant i <= |str| && IndexOf(str, chr) == i + IndexOf(str[i..], chr)
      {
        assert str[i..][1..] == str[i + 1..];
        i := i + 1;
      }
    }

    /** The search for a long option: exact match or unambiguous abbreviation. */
    method FindLong(opts: seq<LongOption>, name: string) returns (m: Match)
      ensures m == LongMatch(opts, name)
    {
      var i, ambig, exact := 0, false, false;
      var found: Option<nat> := None;
      ghost var second := 0;
      while i < |opts|
        invariant 0 <= i <= |opts| && !exact
        invariant forall j | 0 <= j < i :: opts[j].name != name
        invariant found.None? <==> forall j | 0 <= j < i :: !(name <= opts[j].name)
        invariant found.Some? ==> found.value < i && name <= opts[found.value].name
        invariant ambig ==> found.Some? && found.value < second < i && name <= opts[second].name
        invariant !ambig ==> forall j | 0 <= j < i && name <= opts[j].name :: found == Some(j)
      {
        if name <= opts[i].name {
          if |name| == |opts[i].name| {
            found, exact, i := Some(i), true, i + 1;
            break;
          } else if found.None? {
            found := Some(i);
          } else {
            ambig := true;
            second := i;
          }
        }
        i := i + 1;
      }
      m := if ambig && !exact then Ambiguous else if found.Some? then Found(found.value) else Missing;
      MatchUnique(opts, name, m, LongMatch(opts, name));
    }

    /** Decodes the next option of the element at optind. */
    method DecodeNext(opts: string) returns (a: Answer)
      requires nextchar != "" && optind < argv.Length && IsOption(argv[optind])
      modifies `optind, `nextchar
      ensures var d := Decode(spec, opts, old(argv[optind..]), old(nextchar));
              a == d.answer && optind == old(optind) + d.used && nextchar == d.next
    {
      if spec.longopts.Some? && (argv[optind][1] == '-' || spec.longOnly) {
        var longopts := spec.longopts.value;
        var n := MyIndex(nextchar, '=');
        var m := FindLong(longopts, nextchar[..n]);
        if m.Ambiguous? {
          nextchar := "";
          optind := optind + 1;
          return Plain(BAD_OPTION);
        }
        if m.Found? {
          a := FoundLong(opts, longopts[m.index], m.index, nextchar[n..]);
          return;
        }
        var i := MyIndex(opts, nextchar[0]);
        IndexIn(opts, nextchar[0]);
        if !spec.longOnly || argv[optind][1] == '-' || i == |opts| {
          nextchar := "";
          optind := optind + 1;
          return Plain(BAD_OPTION);
        }
      }
      a := ShortOption(opts);
    }

    lemma IndexIn(str: string, chr: char)
      ensures IndexOf(str, chr) == |str| <==> chr !in str
    {
      assert str[..|str|] == str;
    }

    method FoundLong(opts: string, long: LongOption, index: nat, rest: string) returns (a: Answer)
      requires optind < argv.Length
      modifies `optind, `nextchar
      ensures var d := DecodeFound(opts, long, index, old(argv[optind..]), rest);
              a == d.answer && optind == old(optind) + d.used && nextchar == d.next
    {
      var optarg: Option<string> := None;
      optind := optind + 1;
      nextchar := "";
      if rest != "" {
        if long.hasArg != 0 {
          optarg := Some(rest[1..]);
        } else {
          return Plain(BAD_OPTION);
        }
      } else if long.hasArg == 1 {
        if optind < argv.Length {
          optarg := Some(argv[optind]);
          optind := optind + 1;
        } else {
          return Plain(if opts != "" && opts[0] == ':' then ':' as int else BAD_OPTION);
        }
      }
      if long.hasFlag {
        return Answer(0, optarg, None, Some(index), Some(long.val));
      }
      return Answer(long.val, optarg, None, Some(index), None);
    }

    method ShortOption(opts: string) returns (a: Answer)
      requires nextchar != "" && optind < argv.Length
      modifies `optind, `nextchar
      ensures var d := DecodeShort(opts, old(argv[optind..]), old(nextchar));
              a == d.answer && optind == old(optind) + d.used && nextchar == d.next
    {
      var c := nextchar[0];
      nextchar := nextchar[1..];
      var temp := MyIndex(opts, c);
      if nextchar == "" {
        optind := optind + 1;
      }
      if temp == |opts| || c == ':' {
        return Plain(BAD_OPTION).(optopt := Some(c));
      }
      a := Plain(c as int);
      if temp + 1 < |opts| && opts[temp + 1] == ':' {
        if temp + 2 < |opts| && opts[temp + 2] == ':' {
          if nextchar != "" {
            a := a.(optarg := Some(nextchar));
            optind := optind + 1;
          }
          nextchar := "";
        } else {
          if nextchar != "" {
            a := a.(optarg := Some(nextchar));
            optind := optind + 1;
          } else if optind == argv.Length {
            a := Plain(if opts[0] == ':' then ':' as int else BAD_OPTION).(optopt := Some(c));
          } else {
            a := a.(optarg := Some(argv[optind]));
            optind := optind + 1;
          }
          nextchar := "";
        }
      }
    }

    /** Initialisation by the first call. */
    method Start() returns (opts: string)
      requires Valid() && optind == 0
      modifies `optind, `nextchar, `ordering, `firstNonopt, `lastNonopt
      ensures Begun() && optind == 1 && nextchar == "" && tags == old(tags) && opts == old(Opts())
    {
      opts := spec.optstring;
      firstNonopt, lastNonopt, optind, nextchar := 1, 1, 1, "";
      if opts != "" && opts[0] == '-' {
        ordering, opts := ReturnInOrder, opts[1..];
      } else if opts != "" && opts[0] == '+' {
        ordering, opts := RequireOrder, opts[1..];
      } else {
        ordering := if spec.posix then RequireOrder else Permute;
      }
    }

    /** The call has done what `c` says. */
    ghost predicate Does(c: Call, a: Answer, tags0: seq<bool>)
      reads this, argv
    {
      && a == c.answer && tags == tags0 + c.tags && optind > 0
      && if c.over then Ended() else Begun() && optind == c.k && nextchar == c.next
    }

    /** The array is read to its end. */
    method AtEnd(ghost c: Call, ghost tags0: seq<bool>) returns (a: Answer)
      requires Layout(argv[..], orig, tags, firstNonopt, lastNonopt, optind) && optind == argv.Length
      requires firstNonopt == lastNonopt || lastNonopt == optind
      requires nextchar == "" && ordering == spec.Mode()
      requires c.over && c.answer == Plain(EOF) && tags == tags0 + c.tags
      modifies `optind
      ensures Does(c, a, tags0)
    {
      LayoutBounds(argv[..], orig, tags, firstNonopt, lastNonopt, optind);
      LayoutEnds(argv[..], orig, tags, firstNonopt, lastNonopt);
      if firstNonopt != lastNonopt {
        optind := firstNonopt;
      }
      return Plain(EOF);
    }

    lemma BegunFacts()
      requires Begun()
      ensures Layout(argv[..], orig, tags, firstNonopt, lastNonopt, optind)
      ensures argv.Length == |orig| && 1 <= optind <= |orig| && |tags| == optind - 1
      ensures argv[optind..] == orig[optind..] && (optind < |orig| ==> argv[optind] == orig[optind])
      ensures ordering == spec.Mode() && (ordering != Permute ==> firstNonopt == lastNonopt)
    {
      LayoutBounds(argv[..], orig, tags, firstNonopt, lastNonopt, optind);
    }

    lemma LivelyFacts()
      requires Begun() || Turning()
      ensures argv.Length == |orig| && 1 <= optind <= |orig| && |tags| == optind - 1
      ensures argv[optind..] == orig[optind..] && (optind < |orig| ==> argv[optind] == orig[optind])
      ensures ordering == spec.Mode() && (ordering != Permute ==> Begun())
    {
      if Begun() {
        LayoutBounds(argv[..], orig, tags, firstNonopt, lastNonopt, optind);
      } else {
        UpsideBounds(argv[..], orig, tags, firstNonopt, lastNonopt, optind);
      }
    }

    /** A non-option that is not permuted ends the scan or is reported. */
    method NonOption(ghost opts: string) returns (a: Answer)
      requires ordering != Permute && nextchar == "" && 0 < optind < argv.Length == |orig|
      requires orig[optind] != "--" && !IsOption(orig[optind]) && Begun()
      modifies `optind, `tags
      ensures Does(OneCall(spec, opts, orig, old(optind), ""), a, old(tags))
    {
      hide Pick;
      BegunFacts();
      hide Layout, EndState, Repeat, Skipped;
      if ordering == RequireOrder {
        LayoutRestart(argv[..], orig, tags, firstNonopt, lastNonopt, optind);
        LayoutRead(argv[..], orig, tags, optind, optind, optind, false, |orig| - optind);
        LayoutEnds(argv[..], orig, tags + Repeat(false, |orig| - optind), optind, |orig|);
        tags := tags + Repeat(false, |orig| - optind);
        return Plain(EOF);
      }
      a := Report();
    }

    /** Hands a non-option to the caller as if it were an option's argument. */
    method Report() returns (a: Answer)
      requires ordering != Permute && nextchar == "" && 0 < optind < argv.Length == |orig| && Begun()
      modifies `optind, `tags
      ensures Begun() && optind == old(optind) + 1 && tags == old(tags) + [true]
      ensures a == Plain(NON_OPTION).(optarg := Some(orig[old(optind)]))
    {
      BegunFacts();
      a := Plain(NON_OPTION).(optarg := Some(argv[optind]));
      LayoutRead(argv[..], orig, tags, firstNonopt, lastNonopt, optind, true, 1);
      hide Layout;
      assert Repeat(true, 1) == [true];
      tags := tags + [true];
      optind := optind + 1;
    }

    /** Decodes the next option, and counts the elements done with as options. */
    method ReadOption(opts: string) returns (a: Answer)
      requires Begun() && nextchar != "" && optind < argv.Length && IsOption(orig[optind])
      modifies `optind, `nextchar, `tags
      ensures Does(Advance(spec, opts, orig, old(optind), old(nextchar), []), a, old(tags))
    {
      hide Layout, Decode, Repeat, IsOption, Scanner.Begun, Scanner.Does;
      BegunFacts();
      ghost var k, d := optind, Decode(spec, opts, orig[optind..], nextchar);
      DecodeMoves(spec, opts, orig[k..], nextchar);
      assert argv[optind..] == orig[optind..];
      LayoutRead(argv[..], orig, tags, firstNonopt, lastNonopt, k, true, d.used);
      a := DecodeNext(opts);
      assert [] + Repeat(true, d.used) == Repeat(true, d.used);
      tags := tags + Repeat(true, d.used);
      StillBegun();
      Carried(Advance(spec, opts, orig, k, old(nextchar), []), a, old(tags));
    }

    lemma StillBegun()
      requires ordering == spec.Mode() && (ordering != Permute ==> firstNonopt == lastNonopt)
      requires nextchar != "" ==> optind < |orig| && IsOption(orig[optind])
      requires Layout(argv[..], orig, tags, firstNonopt, lastNonopt, optind)
      ensures Begun()
    {
    }

    lemma Carried(c: Call, a: Answer, tags0: seq<bool>)
      requires a == c.answer && !c.over && optind == c.k && nextchar == c.next
      requires tags == tags0 + c.tags && Begun()
      ensures Does(c, a, tags0)
    {
    }

    /** One call of getopt: it answers what a reader of the original arguments expects,
        and moves on the layout of the array accordingly. */
    method GetOpt() returns (a: Answer)
      requires Valid()
      modifies `optind, `nextchar, `ordering, `firstNonopt, `lastNonopt, `tags, argv
      ensures Does(OneCall(spec, old(Opts()), orig, old(At()), old(Next())), a, old(tags))
      ensures old(optind > 0 && nextchar == "") && ordering == RequireOrder && old(optind) < |orig|
              && !IsOption(orig[old(optind)]) ==>
                firstNonopt == old(firstNonopt) && lastNonopt == old(lastNonopt)
    {
      var opts := spec.optstring;
      if optind == 0 {
        opts := Start();
      }
      if nextchar == "" {
        a := NextElement(opts);
      } else {
        LayoutBounds(argv[..], orig, tags, firstNonopt, lastNonopt, optind);
        a := ReadOption(opts);
      }
    }

    /** One more call after EOF. When no group of non-options is left, nothing changes. Otherwise
        the call turns around as many elements in front of the group and counts them as
        non-options; it is the call of a scan of the changed array. If the group holds no
        option behind a "--", the answer is EOF again, with optind moved back. */
    method Again() returns (a: Answer)
      requires Ended() && (Rests() || (ordering == Permute && lastNonopt < 2 * firstNonopt))
      modifies `orig, `optind, `nextchar, `ordering, `firstNonopt, `lastNonopt, `tags, argv
      ensures old(Rests()) ==>
                a == Plain(EOF) && argv[..] == old(argv[..]) && optind == old(optind) && Ended() && Rests()
      ensures !old(Rests()) ==>
                var f, lo := old(firstNonopt), 2 * old(firstNonopt) - old(lastNonopt);
                && orig == Turned(old(argv[..]), lo, f)
                && Does(OneCall(spec, spec.optstring, orig, f, ""), a, Repeat(true, lo - 1) + Repeat(false, f - lo))
                && ((forall i | f <= i < argv.Length :: !IsOption(old(argv[i]))) ==>
                      a == Plain(EOF) && argv[..] == orig && optind == lo && Ended())
    {
      hide Layout, Upside, Turned, OneCall, EndState, Repeat, IsOption;
      EndFacts();
      ghost var k := optind;
      if Rests() {
        LayoutRests(argv[..], firstNonopt, k);
        RestCall(spec, argv[..], k);
        orig, tags := argv[..], Repeat(true, k - 1);
        a := GetOpt();
        SameEnd(argv[..], orig, k, optind);
      } else {
        ghost var lo := 2 * firstNonopt - lastNonopt;
        ghost var o := Turned(argv[..], lo, k);
        UpsideAgain(argv[..], firstNonopt, lastNonopt);
        orig, tags := o, Repeat(true, lo - 1) + Repeat(false, k - lo);
        a := GetOpt();
        if forall i | k <= i < |o| :: !IsOption(o[i]) {
          GroupCall(spec, o, lo, k);
          SameEnd(argv[..], o, lo, optind);
        }
      }
    }

    lemma EndFacts()
      requires Ended()
      ensures argv.Length == |orig| && 1 <= optind <= argv.Length && nextchar == "" && ordering == spec.Mode()
      ensures Rests() ==> 1 <= firstNonopt <= optind
      ensures Rests() && optind < argv.Length ==> ordering == RequireOrder && !IsOption(argv[optind])
      ensures !Rests() ==> optind == firstNonopt < lastNonopt == argv.Length
    {
    }

    /** Between two elements. */
    method NextElement(opts: string) returns (a: Answer)
      requires nextchar == "" && (Begun() || Turning())
      modifies `optind, `nextchar, `firstNonopt, `lastNonopt, `tags, argv
      ensures 1 <= old(optind) <= |orig|
      ensures Does(OneCall(spec, opts, orig, old(optind), ""), a, old(tags))
      ensures ordering == RequireOrder && old(optind) < |orig| && !IsOption(orig[old(optind)]) ==>
                firstNonopt == old(firstNonopt) && lastNonopt == old(lastNonopt)
    {
      hide Layout, EndState, Skipped, OneCall, Repeat, IsOption, Scanner.Begun, Scanner.Turning, Scanner.Does;
      LivelyFacts();
      ghost var k, tags0 := optind, tags;
      NoneSkipped();
      if ordering == Permute {
        SkipNonOptions();
      }
      a := AtElement(opts, k, tags0);
    }

    /** After the skipping, from position k, of non-options. */
    method AtElement(opts: string, ghost k: nat, ghost tags0: seq<bool>) returns (a: Answer)
      requires nextchar == "" && Begun() && (ordering == Permute ==> lastNonopt == optind)
      requires k <= |orig| && optind == k + if spec.Mode() == Permute then Skipped(orig[k..]) else 0
      requires tags == tags0 + Repeat(false, optind - k)
      modifies `optind, `nextchar, `firstNonopt, `lastNonopt, `tags, argv
      ensures Does(OneCall(spec, opts, orig, k, ""), a, tags0)
      ensures ordering == RequireOrder && k < |orig| && !IsOption(orig[k]) ==>
                firstNonopt == old(firstNonopt) && lastNonopt == old(lastNonopt)
    {
      hide Layout, EndState, Skipped, Advance, OneCall, Repeat, IsOption, Scanner.Begun, Scanner.Does;
      BegunFacts();
      ghost var c := OneCall(spec, opts, orig, k, "");
      CallCases(spec, opts, orig, k);
      NoneSkipped();
      ghost var skipped := Repeat(false, optind - k);
      if optind != argv.Length && argv[optind] == "--" {
        EndOfOptions();
        assert tags == tags0 + c.tags;
      }
      if optind == argv.Length {
        a := AtEnd(c, tags0);
        return;
      }
      if !IsOption(argv[optind]) {
        assert tags == tags0 + [] == tags0;
        a := NonOption(opts);
        return;
      }
      a := OpenElement(opts, skipped, tags0);
    }

    lemma NoneSkipped()
      ensures Repeat(false, 0) == []
    {
    }

    /** At an option element, after some non-options. */
    method OpenElement(opts: string, ghost skipped: seq<bool>, ghost tags0: seq<bool>) returns (a: Answer)
      requires optind < argv.Length == |orig| && IsOption(orig[optind]) && orig[optind] != "--"
      requires tags == tags0 + skipped && nextchar == "" && Begun()
      modifies `optind, `nextchar, `tags
      ensures Does(Advance(spec, opts, orig, old(optind), Opening(spec, orig[old(optind)]), skipped), a, tags0)
    {
      hide Layout, EndState, Decode, Repeat;
      BegunFacts();
      ghost var k := optind;
      nextchar := argv[optind][if spec.longopts.Some? && argv[optind][1] == '-' then 2 else 1..];
      ghost var used := Advance(spec, opts, orig, k, nextchar, []).tags;
      a := ReadOption(opts);
      assert tags0 + skipped + used == tags0 + (skipped + used);
    }
  }

  /** What a run has still to read follows what it has read. */
  ghost predicate Going(run: (seq<Answer>, seq<bool>), spec: Spec, orig: seq<string>, answers: seq<Answer>,
                        tags: seq<bool>,
                        k: nat, next: string) {
    && k <= |orig| && (next != "" ==> k < |orig| && IsOption(orig[k]))
    && var more := Run(spec, spec.optstring, orig, k, next);
    run == (answers + more.0, tags + more.1)
  }

  /** One more call. */
  lemma Goes(run: (seq<Answer>, seq<bool>), spec: Spec, orig: seq<string>, answers: seq<Answer>, tags: seq<bool>,
             k: nat, next: string)
    requires Going(run, spec, orig, answers, tags, k, next) && EofIsClear(spec)
    ensures k <= |orig| && (next != "" ==> k < |orig| && IsOption(orig[k]))
    ensures var c := OneCall(spec, spec.optstring, orig, k, next);
            && (c.over <==> c.answer.code == EOF)
            && (if c.over then run == (answers + [c.answer], tags + c.tags)
                else Going(run, spec, orig, answers + [c.answer], tags + c.tags, c.k, c.next))
            && (!c.over ==> k <= c.k <= |orig| && (c.k > k || Left(orig, c.k, c.next) < Left(orig, k, next)))
  {
    hide OneCall;
    var c := OneCall(spec, spec.optstring, orig, k, next);
    EofEnds(spec, spec.optstring, orig, k, next);
    OneCallMoves(spec, spec.optstring, orig, k, next);
    if !c.over {
      var more := Run(spec, spec.optstring, orig, c.k, c.next);
      assert answers + ([c.answer] + more.0) == answers + [c.answer] + more.0;
      assert tags + (c.tags + more.1) == tags + c.tags + more.1;
    }
  }

  /** The first call. */
  lemma Sets(spec: Spec, orig: seq<string>)
    requires |orig| >= 1 && EofIsClear(spec)
    ensures var c := OneCall(spec, spec.FirstOptions(), orig, 1, "");
            var run := Run(spec, spec.FirstOptions(), orig, 1, "");
            && (c.over <==> c.answer.code == EOF)
            && (if c.over then run == ([c.answer], c.tags)
                else Going(run, spec, orig, [c.answer], c.tags, c.k, c.next))
            && (!c.over ==> c.k <= |orig|)
  {
    hide OneCall;
    EofEnds(spec, spec.FirstOptions(), orig, 1, "");
    OneCallMoves(spec, spec.FirstOptions(), orig, 1, "");
  }

  /** The loop of a program around getopt. The answers are those of reading the original
      arguments from left to right; afterwards the array is a permutation of them, with
      the non-options, and everything behind a "--", from optind on. */
  method ReadAll(spec: Spec, argv: array<string>) returns (s: Scanner, answers: seq<Answer>)
    requires argv.Length >= 1 && EofIsClear(spec)
    modifies argv
    ensures s.argv == argv && 1 <= s.optind <= argv.Length
    ensures var run := Run(spec, spec.FirstOptions(), old(argv[..]), 1, "");
            var args := old(argv[1..]);
            && answers == run.0
            && argv[..] == [old(argv[0])] + Pick(args, run.1, true) + Pick(args, run.1, false)
            && s.optind == 1 + |Pick(args, run.1, true)|
    ensures multiset(argv[..]) == multiset(old(argv[..]))
  {
    hide Run, OneCall, Pick, Going, Layout, EndState, Scanner.Begun;
    s := new Scanner(spec, argv);
    ghost var orig := argv[..];
    ghost var run := Run(spec, spec.FirstOptions(), orig, 1, "");
    Sets(spec, orig);
    ghost var c := OneCall(spec, spec.FirstOptions(), orig, 1, "");
    assert [] + c.tags == c.tags;
    var a := s.GetOpt();
    answers := [a];
    while a.code != EOF
      invariant s.argv == argv && s.spec == spec && s.orig == orig && argv.Length == |orig|
      invariant a.code == EOF ==> s.Ended() && run == (answers, s.tags)
      invariant a.code != EOF ==>
                  0 < s.optind <= |orig| && s.Begun() && Going(run, spec, orig, answers, s.tags, s.optind, s.nextchar)
      decreases a.code != EOF, |orig| - s.optind, if s.optind <= |orig| then Left(orig, s.optind, s.nextchar) else 0
    {
      Goes(run, spec, orig, answers, s.tags, s.optind, s.nextchar);
      c := OneCall(spec, spec.optstring, orig, s.optind, s.nextchar);
      a := s.GetOpt();
      answers := answers + [a];
      assert a.code != EOF ==> s.optind == c.k && s.nextchar == c.next;
    }
    Finished(argv[..], orig, s.tags, s.optind);
  }

  lemma Finished(argv: seq<string>, orig: seq<string>, tags: seq<bool>, optind: nat)
    requires EndState(argv, orig, tags, optind)
    ensures 1 <= optind <= |argv| && |tags| == |orig| - 1 >= 0
    ensures argv == [orig[0]] + Pick(orig[1..], tags, true) + Pick(orig[1..], tags, false)
    ensures optind == 1 + |Pick(orig[1..], tags, true)|
    ensures multiset(argv) == multiset(orig)
  {
    PickPermutes(orig[1..], tags);
    Apart(argv, orig, optind);
    hide Pick;
    TwoMultisets(orig[0], Pick(orig[1..], tags, true), Pick(orig[1..], tags, false), orig[1..]);
  }

  lemma Apart(argv: seq<string>, orig: seq<string>, optind: nat)
    requires 1 <= optind <= |argv| == |orig| && argv[0] == orig[0]
    ensures argv == [orig[0]] + argv[1..optind] + argv[optind..] && orig == [orig[0]] + orig[1..]
  {
  }

  lemma TwoMultisets(x: string, t: seq<string>, f: seq<string>, all: seq<string>)
    requires multiset(t) + multiset(f) == multiset(all)
    ensures multiset([x] + t + f) == multiset([x] + all)
  {
    assert multiset([x] + t + f) == multiset([x] + t) + multiset(f) == multiset{x} + multiset(t) + multiset(f);
    assert multiset([x] + all) == multiset{x} + multiset(all);
  }
}
