/** What may not stand where: texts that are cut off where white space may stand, with something
    behind the cut that has no place there. None of them is a document. */
module JsonStray {
  import opened Wrappers
  import opened Parts
  import opened JsonGrammar
  import opened JsonPrinter
  import opened JsonScalars
  import opened JsonBroken
  import opened JsonSpace
  import opened JsonStandard

  /** A container that is begun: what is done, each with its comma, and the place that is reached. */
  datatype Begun = InArray(done: Items, place: ItemPlace) | InObject(ready: Members, spot: MemberPlace)

  /** In front of an item, behind it, or inside. */
  datatype ItemPlace =
    | ItemDue(s: Space)
    | ItemDone(before: Space, value: Element, s: Space)
    | InItem(before: Space, inner: Begun)

  /** In front of a name, of the colon, of the value, behind it, or inside. */
  datatype MemberPlace =
    | NameDue(s: Space)
    | ColonDue(before: Space, name: Units, s: Space)
    | ValueDue(before: Space, name: Units, mid: Space, s: Space)
    | MemberDone(before: Space, name: Units, mid: Space, gap: Space, value: Element, s: Space)
    | InMember(before: Space, name: Units, mid: Space, gap: Space, inner: Begun)

  /** In front of the whole value, behind it, or inside. */
  datatype Cut = Front(s: Space) | Behind(before: Space, e: Element, s: Space) | Inside(before: Space, inner: Begun)

  function DoneItems(items: Items): string {
    match items
    case NoItems => ""
    case Items(before, value, after, more) =>
      SpaceText(before) + (ElementText(value) + (SpaceText(after) + ("," + DoneItems(more))))
  }

  function DoneMembers(members: Members): string {
    match members
    case NoMembers => ""
    case Members(before, name, mid, gap, value, after, more) =>
      NamePart(before, name, mid, gap) + (ElementText(value) + (SpaceText(after) + ("," + DoneMembers(more))))
  }

  /** A member up to its value. */
  function NamePart(before: Space, name: Units, mid: Space, gap: Space): string {
    QuotePart(before, name) + (SpaceText(mid) + (":" + SpaceText(gap)))
  }

  function QuotePart(before: Space, name: Units): string {
    SpaceText(before) + ("\"" + Closed(name))
  }

  function BegunText(b: Begun): string
    decreases b, 1
  {
    match b
    case InArray(done, place) => "[" + (DoneItems(done) + ItemText(place))
    case InObject(ready, spot) => "{" + (DoneMembers(ready) + MemberText(spot))
  }

  function ItemText(p: ItemPlace): string
    decreases p, 0
  {
    match p
    case ItemDue(s) => SpaceText(s)
    case ItemDone(before, value, s) => SpaceText(before) + (ElementText(value) + SpaceText(s))
    case InItem(before, inner) => SpaceText(before) + BegunText(inner)
  }

  function MemberText(p: MemberPlace): string
    decreases p, 0
  {
    match p
    case NameDue(s) => SpaceText(s)
    case ColonDue(before, name, s) => QuotePart(before, name) + SpaceText(s)
    case ValueDue(before, name, mid, s) => NamePart(before, name, mid, s)
    case MemberDone(before, name, mid, gap, value, s) =>
      NamePart(before, name, mid, gap) + (ElementText(value) + SpaceText(s))
    case InMember(before, name, mid, gap, inner) => NamePart(before, name, mid, gap) + BegunText(inner)
  }

  function CutText(c: Cut): string {
    match c
    case Front(s) => SpaceText(s)
    case Behind(before, e, s) => SpaceText(before) + (ElementText(e) + SpaceText(s))
    case Inside(before, inner) => SpaceText(before) + BegunText(inner)
  }

  /** White space that is fit for the parser. */
  predicate Fit(s: Space, comments: bool) {
    SpaceOk(s) && (comments || Quiet(s))
  }

  predicate ElementFit(e: Element, comments: bool) {
    ElementOk(e) && (comments || ElementQuiet(e))
  }

  predicate BegunFit(b: Begun, comments: bool)
    decreases b, 1
  {
    match b
    case InArray(done, place) => ItemsOk(done) && (comments || ItemsQuiet(done)) && ItemFit(place, comments)
    case InObject(ready, spot) => MembersOk(ready) && (comments || MembersQuiet(ready)) && MemberFit(spot, comments)
  }

  predicate ItemFit(p: ItemPlace, comments: bool)
    decreases p, 0
  {
    match p
    case ItemDue(s) => Fit(s, comments)
    case ItemDone(before, value, s) => Fit(before, comments) && ElementFit(value, comments) && Fit(s, comments)
    case InItem(before, inner) => Fit(before, comments) && BegunFit(inner, comments)
  }

  predicate MemberFit(p: MemberPlace, comments: bool)
    decreases p, 0
  {
    match p
    case NameDue(s) => Fit(s, comments)
    case ColonDue(before, name, s) => Fit(before, comments) && UnitsOk(name) && Fit(s, comments)
    case ValueDue(before, name, mid, s) =>
      Fit(before, comments) && UnitsOk(name) && Fit(mid, comments) && Fit(s, comments)
    case MemberDone(before, name, mid, gap, value, s) =>
      && Fit(before, comments) && UnitsOk(name) && Fit(mid, comments) && Fit(gap, comments)
      && ElementFit(value, comments) && Fit(s, comments)
    case InMember(before, name, mid, gap, inner) =>
      && Fit(before, comments) && UnitsOk(name) && Fit(mid, comments) && Fit(gap, comments)
      && BegunFit(inner, comments)
  }

  predicate CutFit(c: Cut, comments: bool) {
    match c
    case Front(s) => Fit(s, comments)
    case Behind(before, e, s) => Fit(before, comments) && ElementFit(e, comments) && Fit(s, comments)
    case Inside(before, inner) => Fit(before, comments) && BegunFit(inner, comments)
  }

  // ------------------------------------------------------------------ what may stand there

  /** The characters that begin a value. */
  const VALUE := "{[\"tfn-0123456789"

  /** The characters that go on with a number right behind it. */
  function MoreDigits(value: Element, s: Space): string {
    if value.ANumber? && s.NoSpace? then "0123456789.eE+-" else ""
  }

  /** The characters that may stand behind a cut, when it is not the end of a text. The end reads
      as NUL. */
  function Wanted(c: Cut): string {
    match c
    case Front(_) => VALUE
    case Behind(_, e, s) => "\0" + MoreDigits(e, s)
    case Inside(_, inner) => WantedIn(inner)
  }

  function WantedIn(b: Begun): string
    decreases b, 1
  {
    match b
    case InArray(_, place) => WantedItem(place)
    case InObject(_, spot) => WantedMember(spot)
  }

  function WantedItem(p: ItemPlace): string
    decreases p, 0
  {
    match p
    case ItemDue(_) => "]" + VALUE
    case ItemDone(_, value, s) => ",]" + MoreDigits(value, s)
    case InItem(_, inner) => WantedIn(inner)
  }

  function WantedMember(p: MemberPlace): string
    decreases p, 0
  {
    match p
    case NameDue(_) => "}\""
    case ColonDue(_, _, _) => ":"
    case ValueDue(_, _, _, _) => VALUE
    case MemberDone(_, _, _, _, value, s) => ",}" + MoreDigits(value, s)
    case InMember(_, _, _, _, inner) => WantedIn(inner)
  }

  /** What begins there is neither wanted nor a blank or a comment. */
  predicate Stray(rest: string, comments: bool, wanted: string) {
    if rest == "" then '\0' !in wanted
    else if rest[0] == '/' then
      !comments || |rest| == 1 || (rest[1] != '/' && (rest[1] == '*' ==> Unmarked(rest[2..])))
    else rest[0] !in " \t\r\n" && rest[0] !in wanted
  }

  // -------------------------------------------------------------- nothing goes on there

  /** At i in a text stands something that is not wanted, or is broken. */
  predicate Wrong(t: string, comments: bool, i: nat, wanted: string) {
    && i <= |t| && '/' !in wanted
    && (BadSlash(t, comments, i) || (Matters(At(t, i)) && (At(t, i) !in wanted || Spoilt(t, comments, i, wanted))))
  }

  /** A value, or the string of a name, is wanted at i, and begins there, but is none. */
  predicate Spoilt(t: string, comments: bool, i: nat, wanted: string)
    requires i <= |t|
  {
    && '"' in wanted && (At(t, i) == '"' || ('{' in wanted && At(t, i) in VALUE))
    && Stuck(t, comments, Value(t, comments, i))
  }

  /** From i on, skipping fails or comes to something that is not wanted. */
  predicate Dead(t: string, comments: bool, i: nat, wanted: string)
    requires i <= |t|
  {
    var k := Skip(t, comments, i);
    k.None? || At(t, k.value) !in wanted || Spoilt(t, comments, k.value, wanted)
  }

  lemma WrongStops(t: string, comments: bool, i: nat, wanted: string)
    requires Wrong(t, comments, i, wanted)
    ensures i <= |t| && Dead(t, comments, i, wanted)
  {
    if BadSlash(t, comments, i) {
      SlashStops(t, comments, i);
    } else {
      SkipNone(t, comments, i);
    }
    hide Skip;
  }

  lemma SpaceDead(t: string, comments: bool, i: nat, s: Space, wanted: string)
    requires Has(t, SpaceText(s), i) && Fit(s, comments) && Wrong(t, comments, i + |SpaceText(s)|, wanted)
    ensures i <= |t| && Dead(t, comments, i, wanted)
    ensures if s == NoSpace then Wrong(t, comments, i, wanted)
            else if NoteFirst(s) then At(t, i) == '/'
            else Follows(At(t, i))
  {
    hide Skip, SpaceText, SpaceOk, Has, Quiet, Follows, Wrong;
    SpaceRead(t, comments, i, s);
    WrongStops(t, comments, i + |SpaceText(s)|, wanted);
    SpaceFollows(t, i, s, At(t, i + |SpaceText(s)|));
    if s == NoSpace {
      NoSpaceText();
    } else if !NoteFirst(s) {
      FirstKind(t, i, s);
    }
  }

  lemma NoSpaceText()
    ensures SpaceText(NoSpace) == ""
  {
  }

  /** Other characters begin no value. */
  lemma NoValue(t: string, comments: bool, i: nat)
    requires i <= |t| && At(t, i) !in VALUE
    ensures Value(t, comments, i) == Fail
  {
    assert forall c: char | IsDigit(c) :: c in VALUE by {
      Figures();
    }
    assert '{' == VALUE[0] && '[' == VALUE[1] && '"' == VALUE[2] && 't' == VALUE[3] && 'f' == VALUE[4];
    assert 'n' == VALUE[5] && '-' == VALUE[6];
    hide Object, Array, Literal, Number, StringRest;
  }

  lemma Figures()
    ensures forall c: char | IsDigit(c) :: c in VALUE
  {
    forall c: char | IsDigit(c)
      ensures c in VALUE
    {
      assert VALUE[7 + (c as int - '0' as int)] == c;
    }
  }

  lemma ArrayDead(t: string, comments: bool, i: nat, done: seq<Json>)
    requires i <= |t| && Dead(t, comments, i, "]" + VALUE)
    ensures Array(t, comments, i, done, false) == Fail
  {
    assert ("]" + VALUE)[0] == ']' && ']' !in VALUE;
    var k := Skip(t, comments, i);
    if k.Some? {
      if At(t, k.value) !in "]" + VALUE {
        assert forall c | c in VALUE :: c in "]" + VALUE;
        NoValue(t, comments, k.value);
      }
      ArrayStep(t, comments, i, k.value, done);
      var r := Value(t, comments, k.value);
      if r.Ok? {
        StuckFails(t, comments, r, OfArray, done + [r.value]);
      }
    }
    hide Skip, Value, Object;
  }

  lemma StuckFails(t: string, comments: bool, r: Parsed<Json>, close: Close, done: seq<Json>)
    requires Stuck(t, comments, r) && r.Ok? && r.pos <= |t|
    ensures Failing(t, comments, r.pos, close, done)
  {
    hide Stuck, Skip, Failing, Dead;
    StuckDead(t, comments, r);
    PointDead(t, comments, r.pos, Closing(close));
    DeadFails(t, comments, r.pos, close, done);
  }

  lemma ObjectDead(t: string, comments: bool, i: nat, names: seq<string>, done: seq<Json>)
    requires i <= |t| && |names| == |done| && Dead(t, comments, i, "}\"")
    ensures Object(t, comments, i, names, done, false) == Fail
  {
    hide Skip, Value, Stuck, StringRest, Colon, Object;
    var k := Skip(t, comments, i);
    if k.Some? && At(t, k.value) == '"' {
      ObjectStep(t, comments, i, k.value, names, done);
      NameFails(t, comments, k.value, names, done);
    } else {
      NoName(t, comments, i, names, done);
    }
  }

  lemma NoName(t: string, comments: bool, i: nat, names: seq<string>, done: seq<Json>)
    requires i <= |t| && |names| == |done|
    requires var k := Skip(t, comments, i); k.Some? ==> At(t, k.value) != '"' && At(t, k.value) != '}'
    ensures Object(t, comments, i, names, done, false) == Fail
  {
    hide Skip, Value, StringRest, Colon;
  }

  /** A string that is none, or that cannot be a name. */
  lemma NameFails(t: string, comments: bool, q: nat, names: seq<string>, done: seq<Json>)
    requires q < |t| && t[q] == '"' && |names| == |done| && Stuck(t, comments, Value(t, comments, q))
    ensures var s := StringRest(t, q + 1, 0); s.Ok? ==> Colon(t, comments, s.pos, names + [s.value], done) == Fail
  {
    hide Array, Object, Number, Literal, StringRest, Member;
    var s := StringRest(t, q + 1, 0);
    if s.Ok? {
      SkipStuck(t, comments, s.pos);
    }
  }

  lemma ColonDead(t: string, comments: bool, i: nat, names: seq<string>, done: seq<Json>)
    requires i <= |t| && |names| == |done| + 1 && Dead(t, comments, i, ":")
    ensures Colon(t, comments, i, names, done) == Fail
  {
    hide Skip, Member, Value;
  }

  lemma MemberDead(t: string, comments: bool, i: nat, names: seq<string>, done: seq<Json>)
    requires i <= |t| && |names| == |done| + 1 && Dead(t, comments, i, VALUE)
    ensures Member(t, comments, i, names, done) == Fail
  {
    var k := Skip(t, comments, i);
    if k.Some? {
      if At(t, k.value) !in VALUE {
        NoValue(t, comments, k.value);
      }
      MemberStep(t, comments, i, k.value, names, done);
      var r := Value(t, comments, k.value);
      if r.Ok? {
        StuckFails(t, comments, r, OfObject, done + [r.value]);
      }
    }
    hide Skip, Object, Value, Array, Member;
  }

  // -------------------------------------------------------------------------- arrays

  /** What closes a value: the end of an array, of an object or of the text. */
  datatype Close = OfArray | OfObject | OfText

  function Closing(c: Close): string {
    match c
    case OfArray => ",]"
    case OfObject => ",}"
    case OfText => "\0"
  }

  /** Reading does not go on from i. */
  ghost predicate Failing(t: string, comments: bool, i: nat, close: Close, done: seq<Json>)
    requires i <= |t|
  {
    match close
    case OfArray => Array(t, comments, i, done, true) == Fail
    case OfObject => forall names | |names| == |done| :: Object(t, comments, i, names, done, true) == Fail
    case OfText => !Ends(t, comments, i)
  }

  /** Behind an item and the white space that follows it. */
  lemma ItemEnds(t: string, comments: bool, k: nat, e: Element, s: Space, close: Close, done: seq<Json>)
    requires ElementFit(e, comments) && Fit(s, comments) && Has(t, ElementText(e), k)
    requires Has(t, SpaceText(s), k + |ElementText(e)|)
    requires Wrong(t, comments, k + |ElementText(e)| + |SpaceText(s)|, Closing(close) + MoreDigits(e, s))
    ensures k <= |t|
    ensures var v := Value(t, comments, k); v.Ok? ==> Failing(t, comments, v.pos, close, done)
  {
    hide Value, Array, Object, ElementText, ElementOf, ElementOk;
    hide ElementQuiet, SpaceText, SpaceOk, Has, Follows, Skip, Reads;
    hide Wrong, Dead, MoreDigits, Failing;
    var end := k + |ElementText(e)|;
    SpaceDead(t, comments, end, s, Closing(close) + MoreDigits(e, s));
    var slash := NoteFirst(s) || (s == NoSpace && At(t, end) == '/');
    NumberEnds(t, comments, end, e, s, Closing(close));
    ElementTaken(t, comments, k, e, slash);
    var r, v := Value(t, comments, k), if e.ANumber? && slash then None else ElementOf(e);
    ReadCases(t, comments, r, v, end);
    if r.Ok? {
      if v.None? {
        StuckDead(t, comments, r);
        PointDead(t, comments, r.pos, Closing(close));
      } else {
        NoQuotes(close, e, s);
        FewerWanted(t, comments, r.pos, Closing(close), MoreDigits(e, s));
      }
      DeadFails(t, comments, r.pos, close, done);
    }
  }

  lemma NumberEnds(t: string, comments: bool, end: nat, e: Element, s: Space, closing: string)
    requires e.ANumber? && s == NoSpace ==> Wrong(t, comments, end, closing + MoreDigits(e, s))
    requires '"' !in closing
    ensures e.ANumber? && s == NoSpace && At(t, end) != '/' ==> Follows(At(t, end))
  {
    hide Value, Stuck, Matters, IsNumberChar;
    if e.ANumber? && s == NoSpace && At(t, end) != '/' {
      assert At(t, end) !in closing + MoreDigits(e, s);
      assert At(t, end) !in MoreDigits(e, s);
      NumberListed(At(t, end));
    }
  }

  lemma NumberListed(c: char)
    ensures IsNumberChar(c) ==> c in "0123456789.eE+-"
  {
    var more := "0123456789.eE+-";
    assert more[10] == '.' && more[11] == 'e' && more[12] == 'E' && more[13] == '+' && more[14] == '-';
    assert IsDigit(c) ==> more[c as int - '0' as int] == c;
  }

  lemma NoQuotes(close: Close, e: Element, s: Space)
    ensures '"' !in Closing(close) + MoreDigits(e, s)
  {
  }

  lemma FewerWanted(t: string, comments: bool, i: nat, wanted: string, more: string)
    requires i <= |t| && Dead(t, comments, i, wanted + more) && '"' !in wanted + more
    ensures Dead(t, comments, i, wanted)
  {
    hide Skip;
    assert forall c | c in wanted :: c in wanted + more;
  }

  /** Stopping where nothing goes on. */
  lemma StuckDead(t: string, comments: bool, r: Parsed<Json>)
    requires Stuck(t, comments, r) && r.Ok? && r.pos <= |t|
    ensures Skip(t, comments, r.pos) == Some(r.pos) && (At(t, r.pos) == '.' || At(t, r.pos) == '/')
  {
    SkipStuck(t, comments, r.pos);
    hide Skip;
  }

  lemma PointDead(t: string, comments: bool, i: nat, wanted: string)
    requires i <= |t| && Skip(t, comments, i) == Some(i) && At(t, i) !in wanted
    ensures Dead(t, comments, i, wanted)
  {
    hide Skip;
  }

  lemma DeadFails(t: string, comments: bool, i: nat, close: Close, done: seq<Json>)
    requires i <= |t| && Dead(t, comments, i, Closing(close))
    ensures Failing(t, comments, i, close, done)
  {
    hide Skip, Object, Value, Array, Dead;
    match close
    case OfArray => NoItem(t, comments, i, done);
    case OfObject =>
      forall names: seq<string> | |names| == |done|
        ensures Object(t, comments, i, names, done, true) == Fail
      {
        NoEntry(t, comments, i, names, done);
      }
    case OfText => NoEnd(t, comments, i);
  }

  lemma NoItem(t: string, comments: bool, i: nat, done: seq<Json>)
    requires i <= |t| && Dead(t, comments, i, ",]")
    ensures Array(t, comments, i, done, true) == Fail
  {
    hide Skip, Value;
  }

  lemma NoEntry(t: string, comments: bool, i: nat, names: seq<string>, done: seq<Json>)
    requires i <= |t| && |names| == |done| && Dead(t, comments, i, ",}")
    ensures Object(t, comments, i, names, done, true) == Fail
  {
    hide Skip, Colon, Value, Member, StringRest, Array;
  }

  lemma NoEnd(t: string, comments: bool, i: nat)
    requires i <= |t| && Dead(t, comments, i, "\0")
    ensures !Ends(t, comments, i)
  {
    hide Skip;
  }

  /** The first character of a begun container. */
  lemma BegunStarts(t: string, i: nat, b: Begun)
    requires Has(t, BegunText(b), i)
    ensures i < |t| && t[i] == (if b.InArray? then '[' else '{') && |BegunText(b)| > 0
  {
    hide DoneItems, DoneMembers, ItemText, MemberText, Has;
    HasChar(t, BegunText(b), i, 0);
    HasInside(t, BegunText(b), i);
  }

  /** A container that is begun, and cut off in front of something unwanted, is no value. */
  lemma {:induction false} BegunDead(t: string, comments: bool, i: nat, b: Begun)
    requires BegunFit(b, comments) && Has(t, BegunText(b), i) && Wrong(t, comments, i + |BegunText(b)|, WantedIn(b))
    ensures i <= |t| && Value(t, comments, i) == Fail
    decreases b, 2, 0
  {
    hide Array, Object, DoneItems, DoneMembers, ItemText, MemberText, Has, Wrong, ItemsOk, MembersOk;
    BegunStarts(t, i, b);
    match b
    case InArray(done, place) =>
      HasPart(t, i, "[", DoneItems(done) + ItemText(place));
      ItemsDead(t, comments, i + 1, done, place, []);
    case InObject(ready, spot) =>
      HasPart(t, i, "{", DoneMembers(ready) + MemberText(spot));
      MembersDead(t, comments, i + 1, ready, spot, [], []);
  }

  /** Where the parts of an item that is done stand. */
  lemma DoneParts(t: string, i: nat, items: Items, rest: string)
    requires items.Items? && Has(t, DoneItems(items) + rest, i)
    ensures var k := i + |SpaceText(items.before)|; var end := k + |ElementText(items.value)|;
            var next := end + |SpaceText(items.after)|;
            && next < |t| && Has(t, SpaceText(items.before), i) && Has(t, ElementText(items.value), k)
            && Has(t, SpaceText(items.after), end) && t[next] == ',' && Has(t, DoneItems(items.more) + rest, next + 1)
            && i + |DoneItems(items) + rest| == next + 1 + |DoneItems(items.more) + rest|
  {
    hide Has, SpaceText, ElementText, DoneItems;
    var a, b, c := SpaceText(items.before), ElementText(items.value), SpaceText(items.after);
    var more := DoneItems(items.more);
    DoneIs(items);
    Shifted(a, b, c, more, rest);
    FourParts(t, i, a, b, c, "," + (more + rest));
    var next := i + |a| + |b| + |c|;
    HasPart(t, next, ",", more + rest);
    HasChar(t, ",", next, 0);
    HasInside(t, ",", next);
  }

  lemma DoneIs(items: Items)
    requires items.Items?
    ensures DoneItems(items)
         == SpaceText(items.before)
            + (ElementText(items.value) + (SpaceText(items.after) + ("," + DoneItems(items.more))))
  {
    hide SpaceText, ElementText;
  }

  lemma Shifted(a: string, b: string, c: string, more: string, rest: string)
    ensures a + (b + (c + ("," + more))) + rest == a + (b + (c + ("," + (more + rest))))
    ensures |a + (b + (c + ("," + more))) + rest| == |a| + |b| + |c| + 1 + |more + rest|
  {
  }

  lemma {:induction false} ItemsDead(t: string, comments: bool, i: nat, items: Items, place: ItemPlace, seen: seq<Json>)
    requires ItemsOk(items) && (comments || ItemsQuiet(items)) && ItemFit(place, comments)
    requires var x := DoneItems(items) + ItemText(place); Has(t, x, i) && Wrong(t, comments, i + |x|, WantedItem(place))
    ensures i <= |t| && Array(t, comments, i, seen, false) == Fail
    decreases place, 1, items
  {
    hide Array, Value, Skip, ElementText, ElementOk, ElementQuiet, ElementOf, SpaceText, SpaceOk, Has, DoneItems;
    hide ItemText, ItemFit, Wrong, Stuck, Reads, StartsValue, Follows, Matters;
    HasInside(t, DoneItems(items) + ItemText(place), i);
    if items.NoItems? {
      NothingDone(ItemText(place));
      PlaceDead(t, comments, i, place, seen);
    } else {
      var k := i + |SpaceText(items.before)|;
      var end := k + |ElementText(items.value)|;
      var next := end + |SpaceText(items.after)|;
      DoneParts(t, i, items, ItemText(place));
      ElementStarts(items.value);
      FirstAt(t, k, ElementText(items.value));
      SkipTo(t, comments, i, items.before);
      NextAt(t, comments, end, items.after, t[next]);
      ElementTaken(t, comments, k, items.value, NoteFirst(items.after));
      ArrayStep(t, comments, i, k, seen);
      var r := Value(t, comments, k);
      ReadCases(t, comments, r, Taken(items.value, items.after), end);
      if r.Ok? && |seen| < LENGTH_MAX {
        if Taken(items.value, items.after).None? {
          ArrayStuck(t, comments, r, seen + [r.value]);
        } else {
          ArrayNext(t, comments, end, next, seen + [r.value]);
          ItemsDead(t, comments, next + 1, items.more, place, seen + [r.value]);
        }
      }
    }
  }

  lemma NothingDone(rest: string)
    ensures DoneItems(NoItems) + rest == rest && DoneMembers(NoMembers) + rest == rest
  {
  }

  lemma {:induction false} PlaceDead(t: string, comments: bool, i: nat, place: ItemPlace, seen: seq<Json>)
    requires ItemFit(place, comments) && Has(t, ItemText(place), i)
    requires Wrong(t, comments, i + |ItemText(place)|, WantedItem(place))
    ensures i <= |t| && Array(t, comments, i, seen, false) == Fail
    decreases place, 0
  {
    hide Array, Value, Skip, ElementText, ElementOk, ElementQuiet, SpaceText, SpaceOk, Has, BegunText, BegunFit, Dead;
    hide Wrong, StartsValue, Matters;
    HasInside(t, ItemText(place), i);
    match place
    case ItemDue(s) =>
      SpaceDead(t, comments, i, s, "]" + VALUE);
      ArrayDead(t, comments, i, seen);
    case ItemDone(before, value, s) =>
      var k := i + |SpaceText(before)|;
      HasPart(t, i, SpaceText(before), ElementText(value) + SpaceText(s));
      HasPart(t, k, ElementText(value), SpaceText(s));
      ElementStarts(value);
      FirstAt(t, k, ElementText(value));
      SkipTo(t, comments, i, before);
      ArrayStep(t, comments, i, k, seen);
      var r := Value(t, comments, k);
      if r.Ok? && |seen| < LENGTH_MAX {
        ItemEnds(t, comments, k, value, s, OfArray, seen + [r.value]);
      }
    case InItem(before, inner) =>
      var k := i + |SpaceText(before)|;
      HasPart(t, i, SpaceText(before), BegunText(inner));
      BegunStarts(t, k, inner);
      BracketMatters(t, k);
      SkipTo(t, comments, i, before);
      BegunDead(t, comments, k, inner);
      ArrayStep(t, comments, i, k, seen);
  }

  lemma BracketMatters(t: string, k: nat)
    requires k < |t| && (t[k] == '[' || t[k] == '{')
    ensures Matters(At(t, k)) && At(t, k) != ']'
  {
  }

  // ------------------------------------------------------------------------- objects

  /** The name of a member is read, or reading fails. */
  lemma QuoteRead(t: string, comments: bool, i: nat, before: Space, name: Units, names: seq<string>, seen: seq<Json>)
    requires Fit(before, comments) && UnitsOk(name) && Has(t, QuotePart(before, name), i) && |names| == |seen|
    ensures var k := i + |QuotePart(before, name)|;
            && i <= |t| && k <= |t|
            && Object(t, comments, i, names, seen, false)
               == if FullString(name).None? then Fail else Colon(t, comments, k, names + [FullString(name).value], seen)
  {
    hide Object, Colon, Skip, StringRest, SpaceText, SpaceOk, Has, UnitsOk, Closed, FullString, StringResult;
    HasInside(t, QuotePart(before, name), i);
    var q := i + |SpaceText(before)|;
    HasPart(t, i, SpaceText(before), "\"" + Closed(name));
    HasPart(t, q, "\"", Closed(name));
    HasChar(t, "\"", q, 0);
    SkipTo(t, comments, i, before);
    ObjectStep(t, comments, i, q, names, seen);
    StringRead(t, q + 1, name, 0);
    NameResult(name, q + 1 + |Closed(name)|);
  }

  /** So are its colon and the white space on both sides. */
  lemma NameRead(t: string, comments: bool, i: nat, before: Space, name: Units, mid: Space, gap: Space,
                 names: seq<string>, seen: seq<Json>)
    requires Fit(before, comments) && UnitsOk(name) && Fit(mid, comments) && SpaceOk(gap)
    requires Has(t, NamePart(before, name, mid, gap), i) && |names| == |seen|
    ensures var c := i + |NamePart(before, name, mid, gap)| - |SpaceText(gap)|;
            && i <= c <= |t| && Has(t, SpaceText(gap), c)
            && Object(t, comments, i, names, seen, false)
               == if FullString(name).None? then Fail
                  else Member(t, comments, c, names + [FullString(name).value], seen)
  {
    hide Object, Colon, Member, Skip, SpaceText, SpaceOk, Has, UnitsOk, FullString, QuotePart;
    var k := i + |QuotePart(before, name)|;
    HasPart(t, i, QuotePart(before, name), SpaceText(mid) + (":" + SpaceText(gap)));
    QuoteRead(t, comments, i, before, name, names, seen);
    HasPart(t, k, SpaceText(mid), ":" + SpaceText(gap));
    var colon := k + |SpaceText(mid)|;
    HasPart(t, colon, ":", SpaceText(gap));
    HasChar(t, ":", colon, 0);
    HasInside(t, ":", colon);
    SkipTo(t, comments, k, mid);
    if FullString(name).Some? {
      ColonStep(t, comments, k, colon, names + [FullString(name).value], seen);
    }
  }

  /** Where the parts of a member that is done stand. */
  lemma ReadyParts(t: string, i: nat, m: Members, rest: string)
    requires m.Members? && Has(t, DoneMembers(m) + rest, i)
    ensures var name := NamePart(m.before, m.name, m.mid, m.gap); var k := i + |name|;
            var end := k + |ElementText(m.value)|; var next := end + |SpaceText(m.after)|;
            && next < |t| && Has(t, name, i) && Has(t, ElementText(m.value), k)
            && Has(t, SpaceText(m.after), end) && t[next] == ',' && Has(t, DoneMembers(m.more) + rest, next + 1)
            && i + |DoneMembers(m) + rest| == next + 1 + |DoneMembers(m.more) + rest|
  {
    hide Has, SpaceText, ElementText, DoneMembers, NamePart;
    var a, b, c := NamePart(m.before, m.name, m.mid, m.gap), ElementText(m.value), SpaceText(m.after);
    var more := DoneMembers(m.more);
    ReadyIs(m);
    Shifted(a, b, c, more, rest);
    FourParts(t, i, a, b, c, "," + (more + rest));
    var next := i + |a| + |b| + |c|;
    HasPart(t, next, ",", more + rest);
    HasChar(t, ",", next, 0);
    HasInside(t, ",", next);
  }

  lemma ReadyIs(m: Members)
    requires m.Members?
    ensures DoneMembers(m)
         == NamePart(m.before, m.name, m.mid, m.gap)
            + (ElementText(m.value) + (SpaceText(m.after) + ("," + DoneMembers(m.more))))
  {
    hide SpaceText, ElementText, NamePart;
  }

  lemma {:induction false} MembersDead(t: string, comments: bool, i: nat, m: Members, spot: MemberPlace,
                                       names: seq<string>, seen: seq<Json>)
    requires MembersOk(m) && (comments || MembersQuiet(m)) && MemberFit(spot, comments) && |names| == |seen|
    requires var x := DoneMembers(m) + MemberText(spot); Has(t, x, i) && Wrong(t, comments, i + |x|, WantedMember(spot))
    ensures i <= |t| && Object(t, comments, i, names, seen, false) == Fail
    decreases spot, 1, m
  {
    hide Object, Member, Value, Skip, ElementText, ElementOk;
    hide ElementQuiet, ElementOf, SpaceText, SpaceOk, Has, DoneMembers;
    hide MemberText, MemberFit, Wrong, NamePart, FullString, UnitsOk, Matters;
    HasInside(t, DoneMembers(m) + MemberText(spot), i);
    if m.NoMembers? {
      NothingDone(MemberText(spot));
      SpotDead(t, comments, i, spot, names, seen);
    } else {
      ReadyParts(t, i, m, MemberText(spot));
      NameRead(t, comments, i, m.before, m.name, m.mid, m.gap, names, seen);
      if FullString(m.name).Some? {
        var k := i + |NamePart(m.before, m.name, m.mid, m.gap)|;
        var r := Value(t, comments, k);
        ReadyRead(t, comments, k - |SpaceText(m.gap)|, k, m, names + [FullString(m.name).value], seen);
        var next := k + |ElementText(m.value)| + |SpaceText(m.after)|;
        if r.Ok? && |seen| < LENGTH_MAX {
          MembersDead(t, comments, next + 1, m.more, spot, names + [FullString(m.name).value], seen + [r.value]);
        }
      }
    }
  }

  /** The value of a member that is done, and the comma behind it. */
  lemma ReadyRead(t: string, comments: bool, c: nat, k: nat, m: Members, names: seq<string>, seen: seq<Json>)
    requires m.Members? && MembersOk(m) && (comments || MembersQuiet(m)) && |names| == |seen| + 1
    requires k == c + |SpaceText(m.gap)| && Has(t, SpaceText(m.gap), c) && Has(t, ElementText(m.value), k)
    requires Has(t, SpaceText(m.after), k + |ElementText(m.value)|)
    requires var next := k + |ElementText(m.value)| + |SpaceText(m.after)|; next < |t| && t[next] == ','
    ensures c <= k <= |t|
    ensures Refused(t, comments, c, k, k + |ElementText(m.value)| + |SpaceText(m.after)| + 1, names, seen)
  {
    hide Object, Member, Value, Skip, ElementText, ElementOk, ElementQuiet, ElementOf, SpaceText, SpaceOk, Has;
    hide Stuck, Reads, StartsValue, Follows, UnitsOk, Matters, Refused;
    var end := k + |ElementText(m.value)|;
    var next := end + |SpaceText(m.after)|;
    ElementStarts(m.value);
    FirstAt(t, k, ElementText(m.value));
    SkipTo(t, comments, c, m.gap);
    NextAt(t, comments, end, m.after, t[next]);
    ElementTaken(t, comments, k, m.value, NoteFirst(m.after));
    ReadCases(t, comments, Value(t, comments, k), Taken(m.value, m.after), end);
    ReadyStep(t, comments, c, k, end, next, Taken(m.value, m.after), names, seen);
  }

  /** If the rest of the object fails, so does the member. */
  predicate Refused(t: string, comments: bool, c: nat, k: nat, rest: nat, names: seq<string>, seen: seq<Json>)
    requires c <= |t| && k <= |t| && rest <= |t| && |names| == |seen| + 1
  {
    var r := Value(t, comments, k);
    (r.Ok? && |seen| < LENGTH_MAX ==> Object(t, comments, rest, names, seen + [r.value], false) == Fail)
      ==> Member(t, comments, c, names, seen) == Fail
  }

  lemma ReadyStep(t: string, comments: bool, c: nat, k: nat, end: nat, next: nat, v: Option<Json>, names: seq<string>,
                  seen: seq<Json>)
    requires c <= k <= |t| && end <= |t| && next < |t| && |names| == |seen| + 1
    requires Skip(t, comments, c) == Some(k) && Skip(t, comments, end) == Some(next) && t[next] == ','
    requires var r := Value(t, comments, k); if v.Some? then r == Ok(v.value, end) else Stuck(t, comments, r)
    ensures Refused(t, comments, c, k, next + 1, names, seen)
  {
    hide Object, Member, Value, Skip, Stuck;
    MemberStep(t, comments, c, k, names, seen);
    var r := Value(t, comments, k);
    if r.Ok? && |seen| < LENGTH_MAX {
      if v.None? {
        ObjectStuck(t, comments, r, names, seen + [r.value]);
      } else {
        ObjectNext(t, comments, end, next, names, seen + [r.value]);
      }
    }
  }

  lemma {:induction false} SpotDead(t: string, comments: bool, i: nat, spot: MemberPlace, names: seq<string>,
                                    seen: seq<Json>)
    requires MemberFit(spot, comments) && Has(t, MemberText(spot), i)
    requires Wrong(t, comments, i + |MemberText(spot)|, WantedMember(spot))
    requires |names| == |seen|
    ensures i <= |t| && Object(t, comments, i, names, seen, false) == Fail
    decreases spot, 0
  {
    hide Object, Colon, Member, Value, Skip, ElementText, ElementOk, ElementQuiet, SpaceText, SpaceOk, Has, BegunText;
    hide BegunFit, Dead, Wrong, NamePart, QuotePart, FullString, UnitsOk, Matters;
    HasInside(t, MemberText(spot), i);
    match spot
    case NameDue(s) =>
      SpaceDead(t, comments, i, s, "}\"");
      ObjectDead(t, comments, i, names, seen);
    case ColonDue(before, name, s) =>
      HasPart(t, i, QuotePart(before, name), SpaceText(s));
      QuoteRead(t, comments, i, before, name, names, seen);
      var k := i + |QuotePart(before, name)|;
      SpaceDead(t, comments, k, s, ":");
      if FullString(name).Some? {
        ColonDead(t, comments, k, names + [FullString(name).value], seen);
      }
    case ValueDue(before, name, mid, s) =>
      NameRead(t, comments, i, before, name, mid, s, names, seen);
      var c := i + |NamePart(before, name, mid, s)| - |SpaceText(s)|;
      SpaceDead(t, comments, c, s, VALUE);
      if FullString(name).Some? {
        MemberDead(t, comments, c, names + [FullString(name).value], seen);
      }
    case MemberDone(before, name, mid, gap, value, s) =>
      HasPart(t, i, NamePart(before, name, mid, gap), ElementText(value) + SpaceText(s));
      var k := i + |NamePart(before, name, mid, gap)|;
      HasPart(t, k, ElementText(value), SpaceText(s));
      NameRead(t, comments, i, before, name, mid, gap, names, seen);
      if FullString(name).Some? {
        LastDead(t, comments, k - |SpaceText(gap)|, k, gap, value, s, names + [FullString(name).value], seen);
      }
    case InMember(before, name, mid, gap, inner) =>
      HasPart(t, i, NamePart(before, name, mid, gap), BegunText(inner));
      var k := i + |NamePart(before, name, mid, gap)|;
      NameRead(t, comments, i, before, name, mid, gap, names, seen);
      BegunStarts(t, k, inner);
      BracketMatters(t, k);
      SkipTo(t, comments, k - |SpaceText(gap)|, gap);
      BegunDead(t, comments, k, inner);
      if FullString(name).Some? {
        MemberStep(t, comments, k - |SpaceText(gap)|, k, names + [FullString(name).value], seen);
      }
  }

  /** Behind the value of the last member. */
  lemma LastDead(t: string, comments: bool, c: nat, k: nat, gap: Space, value: Element, s: Space, names: seq<string>,
                 seen: seq<Json>)
    requires Fit(gap, comments) && ElementFit(value, comments) && Fit(s, comments) && |names| == |seen| + 1
    requires k == c + |SpaceText(gap)| && Has(t, SpaceText(gap), c)
    requires Has(t, ElementText(value), k) && Has(t, SpaceText(s), k + |ElementText(value)|)
    requires Wrong(t, comments, k + |ElementText(value)| + |SpaceText(s)|, ",}" + MoreDigits(value, s))
    ensures c <= k <= |t| && Member(t, comments, c, names, seen) == Fail
  {
    hide Object, Member, Value, Skip, ElementText, ElementOk, ElementQuiet, SpaceText, SpaceOk, Has, Wrong, StartsValue;
    hide Matters;
    ElementStarts(value);
    FirstAt(t, k, ElementText(value));
    SkipTo(t, comments, c, gap);
    LastStep(t, comments, c, k, value, s, names, seen);
  }

  lemma LastStep(t: string, comments: bool, c: nat, k: nat, value: Element, s: Space, names: seq<string>,
                 seen: seq<Json>)
    requires ElementFit(value, comments) && Fit(s, comments) && |names| == |seen| + 1
    requires c <= k <= |t| && Skip(t, comments, c) == Some(k)
    requires Has(t, ElementText(value), k) && Has(t, SpaceText(s), k + |ElementText(value)|)
    requires Wrong(t, comments, k + |ElementText(value)| + |SpaceText(s)|, ",}" + MoreDigits(value, s))
    ensures Member(t, comments, c, names, seen) == Fail
  {
    hide Object, Member, Value, Skip, ElementText, ElementFit, SpaceText, Fit, Has, Wrong, Ends, Array;
    MemberStep(t, comments, c, k, names, seen);
    var r := Value(t, comments, k);
    if r.Ok? && |seen| < LENGTH_MAX {
      ItemEnds(t, comments, k, value, s, OfObject, seen + [r.value]);
    }
  }

  // ------------------------------------------------------------------------ the theorem

  lemma CutDead(t: string, comments: bool, c: Cut)
    requires CutFit(c, comments) && Has(t, CutText(c), 0) && Wrong(t, comments, |CutText(c)|, Wanted(c))
    ensures Document(t, comments) == None
  {
    hide Skip, ElementText, ElementFit, SpaceText, Fit, Has, BegunText, BegunFit, Wrong, Document, MoreDigits, WantedIn;
    match c
    case Front(s) =>
      SpaceDead(t, comments, 0, s, VALUE);
      FrontFails(t, comments);
    case Behind(before, e, s) => BehindDead(t, comments, before, e, s);
    case Inside(before, inner) => InsideDead(t, comments, before, inner);
  }

  lemma BehindDead(t: string, comments: bool, before: Space, e: Element, s: Space)
    requires Fit(before, comments) && ElementFit(e, comments) && Fit(s, comments)
    requires Has(t, SpaceText(before) + (ElementText(e) + SpaceText(s)), 0)
    requires Wrong(t, comments, |SpaceText(before) + (ElementText(e) + SpaceText(s))|, "\0" + MoreDigits(e, s))
    ensures Document(t, comments) == None
  {
    hide Value, Skip, ElementText, ElementOk, ElementQuiet, SpaceText;
    hide Has, Wrong, Document, Ends, MoreDigits, StartsValue, Matters;
    var k := |SpaceText(before)|;
    HasInside(t, SpaceText(before) + (ElementText(e) + SpaceText(s)), 0);
    HasPart(t, 0, SpaceText(before), ElementText(e) + SpaceText(s));
    HasPart(t, k, ElementText(e), SpaceText(s));
    ElementStarts(e);
    FirstAt(t, k, ElementText(e));
    SkipTo(t, comments, 0, before);
    ItemEnds(t, comments, k, e, s, OfText, []);
    WholeRead(t, comments, k, Value(t, comments, k));
  }

  lemma InsideDead(t: string, comments: bool, before: Space, inner: Begun)
    requires Fit(before, comments) && BegunFit(inner, comments) && Has(t, SpaceText(before) + BegunText(inner), 0)
    requires Wrong(t, comments, |SpaceText(before) + BegunText(inner)|, WantedIn(inner))
    ensures Document(t, comments) == None
  {
    hide Value, Skip, SpaceText, Has, BegunText, BegunFit, Wrong, Document, Ends, WantedIn, Matters;
    var k := |SpaceText(before)|;
    HasInside(t, SpaceText(before) + BegunText(inner), 0);
    HasPart(t, 0, SpaceText(before), BegunText(inner));
    BegunStarts(t, k, inner);
    BracketMatters(t, k);
    SkipTo(t, comments, 0, before);
    BegunDead(t, comments, k, inner);
    WholeRead(t, comments, k, Value(t, comments, k));
  }

  lemma FrontFails(t: string, comments: bool)
    requires Dead(t, comments, 0, VALUE)
    ensures Document(t, comments) == None
  {
    var k := Skip(t, comments, 0);
    if k.Some? {
      if At(t, k.value) !in VALUE {
        NoValue(t, comments, k.value);
      }
      var r := Value(t, comments, k.value);
      WholeRead(t, comments, k.value, r);
      if r.Ok? {
        StuckFails(t, comments, r, OfText, []);
      }
    }
    hide Skip, Value, Ends, Document;
  }

  /** Wherever white space may stand: something that may not follow there makes a text that is no
      document, whatever comes behind. */
  lemma NoDocument(c: Cut, rest: string, comments: bool)
    requires CutFit(c, comments) && Stray(rest, comments, Wanted(c))
    ensures Document(CutText(c) + rest, comments) == None
  {
    hide Document, CutText, CutFit, Stray, Wrong;
    WantedFacts(c);
    StrayThere(CutText(c), rest, comments, Wanted(c));
    CutDead(CutText(c) + rest, comments, c);
  }

  /** Wherever a value or a name is due: a word, string or number that is broken makes a text that
      is no document, whatever comes behind. */
  lemma NoScalar(c: Cut, b: Broken, rest: string, comments: bool)
    requires CutFit(c, comments) && BrokenOk(b, rest)
    requires '{' in Wanted(c) || ((b.Unclosed? || b.BadCode?) && '"' in Wanted(c))
    ensures Document(CutText(c) + (BrokenText(b) + rest), comments) == None
  {
    hide Document, CutText, CutFit, Wrong, BrokenText, BrokenOk, Has, Wanted, Value, Stuck;
    var t := CutText(c) + (BrokenText(b) + rest);
    PartsThere(CutText(c), BrokenText(b), rest);
    BrokenStuck(t, comments, |CutText(c)|, b, rest);
    WantedFacts(c);
    StuckWrong(t, comments, |CutText(c)|, Wanted(c));
    CutDead(t, comments, c);
  }

  lemma PartsThere(x: string, y: string, rest: string)
    ensures var t := x + (y + rest); Has(t, x, 0) && Has(t, y, |x|) && |x| + |y| <= |t| && t[|x| + |y|..] == rest
  {
    var t := x + (y + rest);
    assert forall k | 0 <= k < |y| :: t[|x| + k] == y[k];
  }

  lemma StuckWrong(t: string, comments: bool, i: nat, wanted: string)
    requires i < |t| && '/' !in wanted && '"' in wanted && Stuck(t, comments, Value(t, comments, i))
    requires t[i] == '"' || ('{' in wanted && StartsValue(t[i]))
    ensures Wrong(t, comments, i, wanted)
  {
    Figures();
    assert VALUE[0] == '{' && VALUE[1] == '[' && VALUE[2] == '"' && VALUE[3] == 't' && VALUE[4] == 'f';
    assert VALUE[5] == 'n' && VALUE[6] == '-';
    hide Value, Stuck;
  }

  lemma WantedFacts(c: Cut)
    ensures '/' !in Wanted(c) && ('{' in Wanted(c) ==> '"' in Wanted(c))
  {
    assert VALUE[2] == '"';
    match c
    case Front(_) =>
    case Behind(_, _, _) =>
    case Inside(_, inner) => WantedInFacts(inner);
  }

  lemma {:induction false} WantedInFacts(b: Begun)
    ensures '/' !in WantedIn(b) && ('{' in WantedIn(b) ==> '"' in WantedIn(b))
  {
    assert VALUE[2] == '"' && ("]" + VALUE)[3] == '"';
    match b
    case InArray(_, InItem(_, inner)) => WantedInFacts(inner);
    case InObject(_, InMember(_, _, _, _, inner)) => WantedInFacts(inner);
    case _ =>
  }

  lemma StrayThere(x: string, rest: string, comments: bool, wanted: string)
    requires Stray(rest, comments, wanted) && '/' !in wanted
    ensures Has(x + rest, x, 0) && Wrong(x + rest, comments, |x|, wanted)
  {
    var t := x + rest;
    assert rest != "" ==> t[|x|] == rest[0];
    assert |rest| > 1 ==> t[|x| + 1] == rest[1];
    if rest != "" && rest[0] == '/' {
      if comments && |rest| > 1 && rest[1] == '*' {
        NotClosed(x, rest);
      }
    } else if rest != "" {
      var blanks := " \t\r\n";
      assert blanks[0] == ' ' && blanks[1] == '\t' && blanks[2] == '\r' && blanks[3] == '\n';
    }
  }

  lemma NotClosed(x: string, rest: string)
    requires |rest| > 1 && Unmarked(rest[2..])
    ensures NoMarkBehind(x + rest, |x| + 2)
  {
    var t := x + rest;
    forall k | |x| + 2 <= k < |t| - 1
      ensures !(t[k] == '*' && t[k + 1] == '/')
    {
      var j := k - |x| - 2;
      assert rest[2..][j] == rest[j + 2] == t[k] && rest[2..][j + 1] == rest[j + 3] == t[k + 1];
    }
  }
}
