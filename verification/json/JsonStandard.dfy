/** The texts of RFC 8259, and which of them the parser accepts.

    An `Element` is a text of the standard in pieces: with its white space, the spelling of
    its strings and the digits of its numbers. `ElementOf` is what the parser makes of it,
    nothing for the three kinds of text that it refuses: a surrogate escape without a second
    escape behind it, a fraction behind an integer part beyond INT64_MAX, and strings and
    containers that are too long. */
module JsonStandard {
  import opened Wrappers
  import opened Parts
  import opened JsonGrammar
  import opened JsonPrinter
  import opened JsonUnicode
  import opened JsonScalars
  import opened JsonSpace

  // ------------------------------------------------------------------- elements

  datatype Element =
    | AWord(v: Json)
    | ANumber(neg: bool, whole: string, frac: string, exp: Exponent)
    | AString(units: Units)
    | AnArray(blank: Space, items: Items)
    | AnObject(blank: Space, members: Members)

  /** The items of an array, each between white space. */
  datatype Items = NoItems | Items(before: Space, value: Element, after: Space, more: Items)

  datatype Members =
    | NoMembers
    | Members(before: Space, name: Units, mid: Space, gap: Space, value: Element, after: Space, more: Members)

  function WordText(v: Json): string {
    match v
    case Null => "null"
    case Bool(true) => "true"
    case _ => "false"
  }

  function ElementText(e: Element): string
    decreases e, 0
  {
    match e
    case AWord(v) => WordText(v)
    case ANumber(neg, whole, frac, exp) => NumberText(neg, whole, frac, exp)
    case AString(units) => "\"" + Closed(units)
    case AnArray(blank, items) => "[" + if items.NoItems? then SpaceText(blank) + "]" else ItemsText(items)
    case AnObject(blank, members) => "{" + if members.NoMembers? then SpaceText(blank) + "}" else MembersText(members)
  }

  /** The items and the closing bracket. */
  function ItemsText(items: Items): string
    decreases items, 0
  {
    match items
    case NoItems => ""
    case Items(before, value, after, more) =>
      SpaceText(before)
        + (ElementText(value) + (SpaceText(after) + (if more.NoItems? then "]" else "," + ItemsText(more))))
  }

  function MembersText(members: Members): string
    decreases members, 0
  {
    match members
    case NoMembers => ""
    case Members(before, name, mid, gap, value, after, more) =>
      SpaceText(before)
        + ("\""
           + (Closed(name)
              + (SpaceText(mid)
                 + (":" + (SpaceText(gap) + (ElementText(value) + (SpaceText(after) + MembersTail(more))))))))
  }

  function MembersTail(more: Members): string
    decreases more, 1
  {
    if more.NoMembers? then "}" else "," + MembersText(more)
  }

  predicate ElementOk(e: Element) {
    match e
    case AWord(v) => v.Null? || v.Bool?
    case ANumber(neg, whole, frac, exp) => IntOk(whole) && AllDigits(frac) && ExponentOk(exp)
    case AString(units) => UnitsOk(units)
    case AnArray(blank, items) => SpaceOk(blank) && ItemsOk(items)
    case AnObject(blank, members) => SpaceOk(blank) && MembersOk(members)
  }

  predicate ItemsOk(items: Items) {
    match items
    case NoItems => true
    case Items(before, value, after, more) =>
      SpaceOk(before) && ElementOk(value) && SpaceOk(after) && ItemsOk(more)
  }

  predicate MembersOk(members: Members) {
    match members
    case NoMembers => true
    case Members(before, name, mid, gap, value, after, more) =>
      && SpaceOk(before) && UnitsOk(name) && SpaceOk(mid) && SpaceOk(gap)
      && ElementOk(value) && SpaceOk(after) && MembersOk(more)
  }

  /** There are no comments in it. */
  predicate ElementQuiet(e: Element) {
    match e
    case AnArray(blank, items) => Quiet(blank) && ItemsQuiet(items)
    case AnObject(blank, members) => Quiet(blank) && MembersQuiet(members)
    case _ => true
  }

  predicate ItemsQuiet(items: Items) {
    items.Items? ==>
      Quiet(items.before) && ElementQuiet(items.value) && Quiet(items.after) && ItemsQuiet(items.more)
  }

  predicate MembersQuiet(members: Members) {
    members.Members? ==>
      && Quiet(members.before) && Quiet(members.mid) && Quiet(members.gap)
      && ElementQuiet(members.value) && Quiet(members.after) && MembersQuiet(members.more)
  }

  /** A comment directly behind a number is not taken for one. */
  predicate Glued(e: Element, after: Space) {
    e.ANumber? && NoteFirst(after)
  }

  /** What the parser makes of an element in front of white space. */
  function Taken(e: Element, after: Space): Option<Json>
    requires ElementOk(e)
  {
    if Glued(e, after) then None else ElementOf(e)
  }

  function FullString(units: Units): Option<string>
    requires UnitsOk(units)
  {
    var s := StringOf(units);
    if s.Some? && |s.value| <= LENGTH_MAX then s else None
  }

  /** What the parser makes of an element, if it takes it. */
  function ElementOf(e: Element): Option<Json>
    requires ElementOk(e)
  {
    match e
    case AWord(v) => Some(v)
    case ANumber(neg, whole, frac, exp) => NumberOf(neg, whole, frac, exp)
    case AString(units) =>
      var s := FullString(units);
      if s.None? then None else Some(Str(s.value))
    case AnArray(_, items) =>
      var vs := ItemsOf(items);
      if vs.None? || |vs.value| > LENGTH_MAX then None else Some(Arr(vs.value))
    case AnObject(_, members) =>
      var ms := MembersOf(members);
      if ms.None? || |ms.value.1| > LENGTH_MAX then None else Some(Obj(ms.value.0, ms.value.1))
  }

  function ItemsOf(items: Items): Option<seq<Json>>
    requires ItemsOk(items)
  {
    match items
    case NoItems => Some([])
    case Items(_, value, after, more) =>
      var v, rest := if Glued(value, after) then None else ElementOf(value), ItemsOf(more);
      if v.None? || rest.None? then None else Some([v.value] + rest.value)
  }

  function MembersOf(members: Members): (r: Option<(seq<string>, seq<Json>)>)
    requires MembersOk(members)
    ensures r.Some? ==> |r.value.0| == |r.value.1|
  {
    match members
    case NoMembers => Some(([], []))
    case Members(_, name, _, _, value, after, more) =>
      var s, rest := FullString(name), MembersOf(more);
      var v := if Glued(value, after) then None else ElementOf(value);
      if s.None? || v.None? || rest.None? then None else Some(([s.value] + rest.value.0, [v.value] + rest.value.1))
  }

  // ---------------------------------------------------------------- steps of the grammar

  /** A character that is neither white space nor the beginning of a comment. */
  predicate Matters(c: char) {
    !IsSpace(c) && c != '/'
  }

  lemma SkipTo(t: string, comments: bool, i: nat, s: Space)
    requires Has(t, SpaceText(s), i) && SpaceOk(s) && (comments || Quiet(s)) && Matters(At(t, i + |SpaceText(s)|))
    ensures i + |SpaceText(s)| <= |t| && Skip(t, comments, i) == Some(i + |SpaceText(s)|)
  {
    SpaceRead(t, comments, i, s);
    SkipNone(t, comments, i + |SpaceText(s)|);
  }

  lemma SkipNone(t: string, comments: bool, i: nat)
    requires i <= |t| && Matters(At(t, i))
    ensures Skip(t, comments, i) == Some(i)
  {
  }

  /** White space, then a character that may follow a value. */
  lemma SpaceFollows(t: string, i: nat, s: Space, c: char)
    requires Has(t, SpaceText(s), i) && SpaceOk(s) && At(t, i + |SpaceText(s)|) == c
    ensures !NoteFirst(s) && Follows(c) ==> Follows(At(t, i))
    ensures NoteFirst(s) ==> At(t, i) == '/'
  {
    if s != NoSpace {
      HasChar(t, SpaceText(s), i, 0);
    }
  }

  /** What a value read at k does to an array. */
  lemma ArrayStep(t: string, comments: bool, i: nat, k: nat, done: seq<Json>)
    requires i <= |t| && k <= |t| && Skip(t, comments, i) == Some(k) && At(t, k) != ']'
    ensures var v := Value(t, comments, k);
            Array(t, comments, i, done, false)
            == if v.Fail? || |done| >= LENGTH_MAX then Fail else Array(t, comments, v.pos, done + [v.value], true)
  {
    hide Value, Skip, Object;
  }

  /** What may stand behind a value in an array. */
  lemma ArrayNext(t: string, comments: bool, i: nat, k: nat, done: seq<Json>)
    requires i <= |t| && k <= |t| && Skip(t, comments, i) == Some(k)
    ensures Array(t, comments, i, done, true)
         == if At(t, k) == ']' then Ok(Arr(done), k + 1)
            else if At(t, k) == ',' then Array(t, comments, k + 1, done, false) else Fail
  {
    hide Value, Skip, Object;
  }

  lemma ObjectStep(t: string, comments: bool, i: nat, k: nat, names: seq<string>, done: seq<Json>)
    requires i <= |t| && k <= |t| && |names| == |done| && Skip(t, comments, i) == Some(k) && At(t, k) == '"'
    ensures k < |t|
    ensures var s := StringRest(t, k + 1, 0);
            Object(t, comments, i, names, done, false)
            == if s.Fail? then Fail else Colon(t, comments, s.pos, names + [s.value], done)
  {
    hide Value, Skip, Colon, StringRest, Array;
  }

  lemma ColonStep(t: string, comments: bool, i: nat, k: nat, names: seq<string>, done: seq<Json>)
    requires i <= |t| && k <= |t| && |names| == |done| + 1 && Skip(t, comments, i) == Some(k) && At(t, k) == ':'
    ensures k < |t| && Colon(t, comments, i, names, done) == Member(t, comments, k + 1, names, done)
  {
    hide Value, Skip, Member, Array, Object;
  }

  lemma MemberStep(t: string, comments: bool, i: nat, k: nat, names: seq<string>, done: seq<Json>)
    requires i <= |t| && k <= |t| && |names| == |done| + 1 && Skip(t, comments, i) == Some(k)
    ensures var v := Value(t, comments, k);
            Member(t, comments, i, names, done)
            == if v.Fail? || |done| >= LENGTH_MAX then Fail
               else Object(t, comments, v.pos, names, done + [v.value], true)
  {
    hide Value, Skip, Object, Array;
  }

  lemma ObjectCloses(t: string, comments: bool, i: nat, k: nat, names: seq<string>, done: seq<Json>)
    requires i <= |t| && k <= |t| && |names| == |done| && Skip(t, comments, i) == Some(k) && At(t, k) == '}'
    ensures Object(t, comments, i, names, done, true) == Ok(Obj(names, done), k + 1)
  {
    hide Value, Skip, Colon, Member, StringRest, Array;
  }

  lemma ObjectNext(t: string, comments: bool, i: nat, k: nat, names: seq<string>, done: seq<Json>)
    requires i <= |t| && k <= |t| && |names| == |done| && Skip(t, comments, i) == Some(k) && At(t, k) == ','
    ensures k < |t| && Object(t, comments, i, names, done, true) == Object(t, comments, k + 1, names, done, false)
  {
    hide Value, Skip, Colon, Member, StringRest, Array;
  }

  lemma ObjectRefuses(t: string, comments: bool, i: nat, k: nat, names: seq<string>, done: seq<Json>)
    requires i <= |t| && k <= |t| && |names| == |done| && Skip(t, comments, i) == Some(k)
    requires At(t, k) != '}' && At(t, k) != ','
    ensures Object(t, comments, i, names, done, true) == Fail
  {
    hide Value, Skip, Colon, Member, StringRest, Array;
  }

  // -------------------------------------------------------------------- reading back

  /** Result r is that of reading an element up to `end`, which is v if it is taken. */
  predicate Reads(t: string, comments: bool, r: Parsed<Json>, v: Option<Json>, end: nat) {
    if v.Some? then r == Ok(v.value, end) else Stuck(t, comments, r)
  }

  /** What reading items gives, behind those that are done. */
  function ItemsResult(items: Items, done: seq<Json>, end: nat): Parsed<Json>
    requires ItemsOk(items)
  {
    var vs := ItemsOf(items);
    if vs.None? || |done| + |vs.value| > LENGTH_MAX then Fail else Ok(Arr(done + vs.value), end)
  }

  function MembersResult(members: Members, names: seq<string>, done: seq<Json>, end: nat): Parsed<Json>
    requires MembersOk(members)
  {
    var ms := MembersOf(members);
    if ms.None? || |done| + |ms.value.1| > LENGTH_MAX then Fail else Ok(Obj(names + ms.value.0, done + ms.value.1), end)
  }

  lemma ElementStarts(e: Element)
    requires ElementOk(e)
    ensures ElementText(e) != "" && StartsValue(ElementText(e)[0])
  {
    hide ItemsText, MembersText, Closed, FractionText, ExponentText;
    if e.ANumber? {
      assert IsDigit(e.whole[0]);
    }
  }

  /** Where the parts of an item stand. */
  lemma ItemsParts(t: string, i: nat, items: Items)
    requires items.Items? && Has(t, ItemsText(items), i)
    ensures var k := i + |SpaceText(items.before)|; var end := k + |ElementText(items.value)|;
            var next := end + |SpaceText(items.after)|;
            && next < |t| && Has(t, SpaceText(items.before), i) && Has(t, ElementText(items.value), k)
                && Has(t, SpaceText(items.after), end)
            && t[next] == (if items.more.NoItems? then ']' else ',')
            && (items.more.Items? ==> Has(t, ItemsText(items.more), next + 1))
            && i + |ItemsText(items)| == next + 1 + |ItemsText(items.more)|
  {
    hide ElementText, SpaceText, Has, ItemsText, ItemsTail;
    var k := i + |SpaceText(items.before)|;
    var end := k + |ElementText(items.value)|;
    var next := end + |SpaceText(items.after)|;
    ItemsIs(items);
    FourParts(t, i, SpaceText(items.before), ElementText(items.value), SpaceText(items.after), ItemsTail(items.more));
    ItemsTailThere(t, next, items.more);
  }

  function ItemsTail(more: Items): string {
    if more.NoItems? then "]" else "," + ItemsText(more)
  }

  lemma ItemsIs(items: Items)
    requires items.Items?
    ensures ItemsText(items)
         == SpaceText(items.before) + (ElementText(items.value) + (SpaceText(items.after) + ItemsTail(items.more)))
  {
    hide ElementText, SpaceText;
  }

  lemma ItemsTailThere(t: string, i: nat, more: Items)
    requires Has(t, ItemsTail(more), i)
    ensures i < |t| && t[i] == (if more.NoItems? then ']' else ',')
    ensures more.Items? ==> Has(t, ItemsText(more), i + 1)
    ensures |ItemsTail(more)| == 1 + |ItemsText(more)|
  {
    hide ItemsText, Has;
    if more.Items? {
      HasPart(t, i, ",", ItemsText(more));
      HasChar(t, ",", i, 0);
      HasInside(t, ",", i);
    } else {
      HasChar(t, "]", i, 0);
      HasInside(t, "]", i);
      NoMoreText();
    }
  }

  /** Nothing goes on behind a point. */
  lemma ArrayStuck(t: string, comments: bool, r: Parsed<Json>, done: seq<Json>)
    requires Stuck(t, comments, r) && r.Ok? && r.pos <= |t|
    ensures Array(t, comments, r.pos, done, true) == Fail
  {
    SkipStuck(t, comments, r.pos);
    ArrayNext(t, comments, r.pos, r.pos, done);
    hide Array;
  }

  lemma ObjectStuck(t: string, comments: bool, r: Parsed<Json>, names: seq<string>, done: seq<Json>)
    requires Stuck(t, comments, r) && r.Ok? && r.pos <= |t| && |names| == |done|
    ensures Object(t, comments, r.pos, names, done, true) == Fail
  {
    SkipStuck(t, comments, r.pos);
    ObjectRefuses(t, comments, r.pos, r.pos, names, done);
    hide Object;
  }

  lemma {:induction false} ItemsRead(t: string, comments: bool, i: nat, items: Items, done: seq<Json>)
    requires items.Items? && ItemsOk(items) && Has(t, ItemsText(items), i) && (comments || ItemsQuiet(items))
    ensures i <= |t| && Array(t, comments, i, done, false) == ItemsResult(items, done, i + |ItemsText(items)|)
    decreases items, 0
  {
    hide Array, Value, Skip, ElementText, ItemsText, ElementOk;
    hide ElementOf, ItemsOf, Has, SpaceOk, SpaceText, ItemsResult, Reads, Stuck;
    hide StartsValue, Follows;
    ItemsParts(t, i, items);
    var k := i + |SpaceText(items.before)|;
    var end := k + |ElementText(items.value)|;
    var next := end + |SpaceText(items.after)|;
    ElementStarts(items.value);
    FirstAt(t, k, ElementText(items.value));
    SkipTo(t, comments, i, items.before);
    NextAt(t, comments, end, items.after, t[next]);
    ElementTaken(t, comments, k, items.value, NoteFirst(items.after));
    ArrayStep(t, comments, i, k, done);
    var r := Value(t, comments, k);
    ReadCases(t, comments, r, Taken(items.value, items.after), end);
    if Taken(items.value, items.after).None? {
      if r.Ok? && |done| < LENGTH_MAX {
        ArrayStuck(t, comments, r, done + [r.value]);
      }
    } else if |done| < LENGTH_MAX {
      ArrayNext(t, comments, end, next, done + [r.value]);
      if items.more.Items? {
        ItemsRead(t, comments, next + 1, items.more, done + [r.value]);
      } else {
        NoMoreText();
      }
    }
    ItemsJoined(items, done, i + |ItemsText(items)|);
  }

  /** The first character of a value matters, and closes nothing. */
  lemma FirstAt(t: string, k: nat, x: string)
    requires Has(t, x, k) && x != "" && StartsValue(x[0])
    ensures k < |t| && Matters(At(t, k)) && At(t, k) != ']' && At(t, k) != '}'
  {
    HasChar(t, x, k, 0);
    HasInside(t, x, k);
  }

  /** From the end of a value to what closes or separates. */
  lemma NextAt(t: string, comments: bool, end: nat, after: Space, c: char)
    requires Has(t, SpaceText(after), end) && SpaceOk(after) && (comments || Quiet(after))
    requires At(t, end + |SpaceText(after)|) == c && (c == ',' || c == ']' || c == '}')
    ensures end <= end + |SpaceText(after)| <= |t| && Skip(t, comments, end) == Some(end + |SpaceText(after)|)
    ensures NoteFirst(after) ==> At(t, end) == '/'
    ensures !NoteFirst(after) ==> Follows(At(t, end))
  {
    SkipTo(t, comments, end, after);
    SpaceFollows(t, end, after, c);
  }

  lemma ReadCases(t: string, comments: bool, r: Parsed<Json>, v: Option<Json>, end: nat)
    requires Reads(t, comments, r, v, end)
    ensures v.Some? ==> r == Ok(v.value, end)
    ensures v.None? ==> Stuck(t, comments, r)
  {
  }

  /** The result for items, from that for the first and those behind it. */
  lemma ItemsJoined(items: Items, done: seq<Json>, end: nat)
    requires items.Items? && ItemsOk(items)
    ensures ItemsResult(items, done, end)
         == if Taken(items.value, items.after).None? || |done| >= LENGTH_MAX then Fail
            else if items.more.NoItems? then Ok(Arr(done + [Taken(items.value, items.after).value]), end)
            else ItemsResult(items.more, done + [Taken(items.value, items.after).value], end)
  {
    hide ElementOf, ElementOk;
    var v, rest := Taken(items.value, items.after), ItemsOf(items.more);
    if v.Some? && rest.Some? {
      Rejoined(done, v.value, rest.value);
    }
  }

  lemma Rejoined<T>(done: seq<T>, x: T, rest: seq<T>)
    ensures done + ([x] + rest) == done + [x] + rest && done + [x] + [] == done + [x]
  {
  }

  /** Where the parts of a member stand. */
  lemma MembersParts(t: string, i: nat, members: Members)
    requires members.Members? && Has(t, MembersText(members), i)
    ensures var q := i + |SpaceText(members.before)|;
            var colon := q + 1 + |Closed(members.name)| + |SpaceText(members.mid)|;
            var k := colon + 1 + |SpaceText(members.gap)|; var end := k + |ElementText(members.value)|;
            var next := end + |SpaceText(members.after)|;
            && next < |t| && Has(t, SpaceText(members.before), i) && t[q] == '"' && Has(t, Closed(members.name), q + 1)
            && Has(t, SpaceText(members.mid), q + 1 + |Closed(members.name)|) && t[colon] == ':'
                && Has(t, SpaceText(members.gap), colon + 1)
            && Has(t, ElementText(members.value), k) && Has(t, SpaceText(members.after), end)
            && t[next] == (if members.more.NoMembers? then '}' else ',')
            && (members.more.Members? ==> Has(t, MembersText(members.more), next + 1))
            && i + |MembersText(members)| == next + 1 + |MembersText(members.more)|
  {
    hide ElementText, Closed, Has, SpaceText, MembersText, MembersTail;
    var m := members;
    var x := ":" + (SpaceText(m.gap) + (ElementText(m.value) + (SpaceText(m.after) + MembersTail(m.more))));
    var q := i + |SpaceText(m.before)|;
    MembersIs(m);
    HasPart(t, i, SpaceText(m.before), "\"" + (Closed(m.name) + (SpaceText(m.mid) + x)));
    HasPart(t, q, "\"", Closed(m.name) + (SpaceText(m.mid) + x));
    HasChar(t, "\"", q, 0);
    HasPart(t, q + 1, Closed(m.name), SpaceText(m.mid) + x);
    HasPart(t, q + 1 + |Closed(m.name)|, SpaceText(m.mid), x);
    MemberParts(t, q + 1 + |Closed(m.name)| + |SpaceText(m.mid)|, m);
  }

  lemma MembersIs(m: Members)
    requires m.Members?
    ensures MembersText(m)
         == SpaceText(m.before)
            + ("\""
               + (Closed(m.name)
                  + (SpaceText(m.mid)
                     + (":"
                        + (SpaceText(m.gap) + (ElementText(m.value) + (SpaceText(m.after) + MembersTail(m.more))))))))
    ensures |MembersText(m)|
         == |SpaceText(m.before)| + 1 + |Closed(m.name)| + |SpaceText(m.mid)| + 1 + |SpaceText(m.gap)|
            + |ElementText(m.value)| + |SpaceText(m.after)| + |MembersTail(m.more)|
  {
    hide Closed, ElementText, SpaceText, MembersTail;
  }

  /** Behind the name of a member. */
  lemma MemberParts(t: string, colon: nat, m: Members)
    requires m.Members?
    requires Has(t, ":" + (SpaceText(m.gap) + (ElementText(m.value) + (SpaceText(m.after) + MembersTail(m.more)))),
                 colon)
    ensures var k := colon + 1 + |SpaceText(m.gap)|; var end := k + |ElementText(m.value)|;
            var next := end + |SpaceText(m.after)|;
            && next < |t| && t[colon] == ':' && Has(t, SpaceText(m.gap), colon + 1)
            && Has(t, ElementText(m.value), k) && Has(t, SpaceText(m.after), end)
            && t[next] == (if m.more.NoMembers? then '}' else ',')
            && (m.more.Members? ==> Has(t, MembersText(m.more), next + 1))
            && |MembersTail(m.more)| == 1 + |MembersText(m.more)|
  {
    hide ElementText, Has, SpaceText, MembersText, MembersTail;
    var x := SpaceText(m.after) + MembersTail(m.more);
    var k := colon + 1 + |SpaceText(m.gap)|;
    var end := k + |ElementText(m.value)|;
    HasPart(t, colon, ":", SpaceText(m.gap) + (ElementText(m.value) + x));
    HasChar(t, ":", colon, 0);
    HasPart(t, colon + 1, SpaceText(m.gap), ElementText(m.value) + x);
    HasPart(t, k, ElementText(m.value), x);
    HasPart(t, end, SpaceText(m.after), MembersTail(m.more));
    TailThere(t, end + |SpaceText(m.after)|, m.more);
  }

  lemma TailThere(t: string, i: nat, more: Members)
    requires Has(t, MembersTail(more), i)
    ensures i < |t| && t[i] == (if more.NoMembers? then '}' else ',')
    ensures more.Members? ==> Has(t, MembersText(more), i + 1)
    ensures |MembersTail(more)| == 1 + |MembersText(more)|
  {
    HasChar(t, MembersTail(more), i, 0);
    if more.Members? {
      hide MembersText, Has;
      HasPart(t, i, ",", MembersText(more));
    }
  }

  lemma {:induction false} MembersRead(t: string, comments: bool, i: nat, members: Members, names: seq<string>,
                                       done: seq<Json>)
    requires members.Members? && MembersOk(members) && Has(t, MembersText(members), i) && |names| == |done|
    requires comments || MembersQuiet(members)
    ensures i <= |t|
    ensures Object(t, comments, i, names, done, false)
            == MembersResult(members, names, done, i + |MembersText(members)|)
    decreases members, 1
  {
    hide Object, Colon, Member, Value, Skip, StringRest;
    hide Closed, ElementText, MembersText, ElementOk, ElementOf, MembersOf;
    hide Has, SpaceOk, SpaceText, MembersResult, StringResult, FullString, UnitsOk;
    MembersParts(t, i, members);
    var q := i + |SpaceText(members.before)|;
    SkipTo(t, comments, i, members.before);
    ObjectStep(t, comments, i, q, names, done);
    StringRead(t, q + 1, members.name, 0);
    NameResult(members.name, q + 1 + |Closed(members.name)|);
    if FullString(members.name).Some? {
      ValueRead(t, comments, q + 1 + |Closed(members.name)|, members, names + [FullString(members.name).value], done,
                i + |MembersText(members)|);
    }
    MembersJoined(members, names, done, i + |MembersText(members)|);
  }

  lemma NameResult(units: Units, end: nat)
    requires UnitsOk(units)
    ensures StringResult(units, 0, end)
         == if FullString(units).Some? then Ok(FullString(units).value, end) else Fail
  {
    hide StringOf, UnitsOk;
  }

  /** Behind its name: the value of a member, and the members that follow. */
  lemma {:induction false} ValueRead(t: string, comments: bool, i: nat, members: Members, names: seq<string>,
                                     done: seq<Json>,
                                     close: nat)
    requires members.Members? && MembersOk(members) && |names| == |done| + 1 && i <= |t|
    requires comments || MembersQuiet(members)
    requires var colon := i + |SpaceText(members.mid)|; var k := colon + 1 + |SpaceText(members.gap)|;
             var end := k + |ElementText(members.value)|; var next := end + |SpaceText(members.after)|;
             && next < |t| && Has(t, SpaceText(members.mid), i) && t[colon] == ':'
                 && Has(t, SpaceText(members.gap), colon + 1)
             && Has(t, ElementText(members.value), k) && Has(t, SpaceText(members.after), end)
             && t[next] == (if members.more.NoMembers? then '}' else ',')
             && (members.more.Members? ==> Has(t, MembersText(members.more), next + 1))
             && close == next + 1 + |MembersText(members.more)|
    ensures Colon(t, comments, i, names, done)
         == if Taken(members.value, members.after).None? || |done| >= LENGTH_MAX then Fail
            else if members.more.NoMembers? then
                  Ok(Obj(names, done + [Taken(members.value, members.after).value]), close)
            else MembersResult(members.more, names, done + [Taken(members.value, members.after).value], close)
    decreases members, 0
  {
    hide Object, Colon, Member, Value, Skip, ElementText, MembersText, ElementOk, ElementOf, MembersOf;
    hide Has, SpaceOk, SpaceText, MembersResult, Reads, Stuck, StartsValue, Follows, UnitsOk;
    var colon := i + |SpaceText(members.mid)|;
    var k := colon + 1 + |SpaceText(members.gap)|;
    var end := k + |ElementText(members.value)|;
    var next := end + |SpaceText(members.after)|;
    SkipTo(t, comments, i, members.mid);
    ColonStep(t, comments, i, colon, names, done);
    ElementStarts(members.value);
    FirstAt(t, k, ElementText(members.value));
    SkipTo(t, comments, colon + 1, members.gap);
    NextAt(t, comments, end, members.after, t[next]);
    ElementTaken(t, comments, k, members.value, NoteFirst(members.after));
    MemberStep(t, comments, colon + 1, k, names, done);
    var r := Value(t, comments, k);
    ReadCases(t, comments, r, Taken(members.value, members.after), end);
    if Taken(members.value, members.after).None? {
      if r.Ok? && |done| < LENGTH_MAX {
        ObjectStuck(t, comments, r, names, done + [r.value]);
      }
    } else if |done| < LENGTH_MAX {
      if members.more.Members? {
        ObjectNext(t, comments, end, next, names, done + [r.value]);
        MembersRead(t, comments, next + 1, members.more, names, done + [r.value]);
      } else {
        ObjectCloses(t, comments, end, next, names, done + [r.value]);
        NoMoreText();
      }
    }
  }

  lemma NoMoreText()
    ensures MembersText(NoMembers) == "" && ItemsText(NoItems) == ""
  {
  }

  lemma MembersJoined(members: Members, names: seq<string>, done: seq<Json>, end: nat)
    requires members.Members? && MembersOk(members)
    ensures var s, v := FullString(members.name), Taken(members.value, members.after);
            MembersResult(members, names, done, end)
            == if s.None? || v.None? || |done| >= LENGTH_MAX then Fail
               else if members.more.NoMembers? then Ok(Obj(names + [s.value], done + [v.value]), end)
               else MembersResult(members.more, names + [s.value], done + [v.value], end)
  {
    hide ElementOf, ElementOk, FullString, UnitsOk, AllSpace;
    var s, v, rest := FullString(members.name), Taken(members.value, members.after), MembersOf(members.more);
    if s.Some? && v.Some? && rest.Some? {
      Rejoined(done, v.value, rest.value.1);
      Rejoined(names, s.value, rest.value.0);
    }
  }

  /** In front of a slash, or of something else that may follow. */
  lemma {:induction false} ElementTaken(t: string, comments: bool, i: nat, e: Element, slash: bool)
    requires ElementOk(e) && Has(t, ElementText(e), i) && (comments || ElementQuiet(e))
    requires if slash then At(t, i + |ElementText(e)|) == '/' else e.ANumber? ==> Follows(At(t, i + |ElementText(e)|))
    ensures i <= |t|
    ensures Reads(t, comments, Value(t, comments, i), if e.ANumber? && slash then None else ElementOf(e),
                  i + |ElementText(e)|)
    decreases e, 2
  {
    hide Value, Has, Follows, Stuck, NumberText, ItemsText, MembersText;
    if e.ANumber? && slash {
      NumberSlash(t, comments, i, e.neg, e.whole, e.frac, e.exp);
    } else {
      ElementRead(t, comments, i, e);
    }
  }

  /** Every element of the standard is read as `ElementOf` says, wherever it stands; when it is
      not taken, reading fails or stops where nothing goes on. */
  lemma {:induction false} ElementRead(t: string, comments: bool, i: nat, e: Element)
    requires ElementOk(e) && Has(t, ElementText(e), i) && (comments || ElementQuiet(e))
    requires e.ANumber? ==> Follows(At(t, i + |ElementText(e)|))
    ensures i <= |t| && Reads(t, comments, Value(t, comments, i), ElementOf(e), i + |ElementText(e)|)
    decreases e, 1
  {
    hide Value, Has, Follows, ItemsText, MembersText, ItemsOf, MembersOf, ItemsOk, MembersOk;
    hide Closed, NumberText, NumberOf, FullString, Stuck, SpaceText, SpaceOk;
    HasInside(t, ElementText(e), i);
    match e {
      case AWord(v) => WordRead(t, comments, i, v);
      case ANumber(neg, whole, frac, exp) => NumberRead(t, comments, i, neg, whole, frac, exp);
      case AString(units) => TextRead(t, comments, i, units);
      case AnArray(blank, items) =>
        if items.NoItems? {
          EmptyArray(t, comments, i, blank);
        } else {
          ArrayRead(t, comments, i, blank, items);
        }
      case AnObject(blank, members) =>
        if members.NoMembers? {
          EmptyObject(t, comments, i, blank);
        } else {
          ObjectRead(t, comments, i, blank, members);
        }
    }
  }

  lemma {:induction false} ArrayRead(t: string, comments: bool, i: nat, blank: Space, items: Items)
    requires items.Items? && ElementOk(AnArray(blank, items)) && (comments || ItemsQuiet(items))
    requires Has(t, ElementText(AnArray(blank, items)), i)
    ensures var e := AnArray(blank, items);
            i <= |t| && Reads(t, comments, Value(t, comments, i), ElementOf(e), i + |ElementText(e)|)
    decreases items, 1
  {
    hide Value, Has, ItemsText, ItemsOf, ItemsResult, Array, ElementOf, Stuck;
    HasPart(t, i, "[", ItemsText(items));
    HasChar(t, "[", i, 0);
    HasInside(t, "[", i);
    ItemsRead(t, comments, i + 1, items, []);
    ArrayBegins(t, comments, i, blank, items, i + 1 + |ItemsText(items)|);
  }

  lemma {:induction false} ObjectRead(t: string, comments: bool, i: nat, blank: Space, members: Members)
    requires members.Members? && ElementOk(AnObject(blank, members)) && (comments || MembersQuiet(members))
    requires Has(t, ElementText(AnObject(blank, members)), i)
    ensures var e := AnObject(blank, members);
            i <= |t| && Reads(t, comments, Value(t, comments, i), ElementOf(e), i + |ElementText(e)|)
    decreases members, 2
  {
    hide Value, Has, MembersText, MembersOf, MembersResult, Object, ElementOf, Stuck;
    HasPart(t, i, "{", MembersText(members));
    HasChar(t, "{", i, 0);
    HasInside(t, "{", i);
    MembersRead(t, comments, i + 1, members, [], []);
    ObjectBegins(t, comments, i, blank, members, i + 1 + |MembersText(members)|);
  }

  lemma WordRead(t: string, comments: bool, i: nat, v: Json)
    requires (v.Null? || v.Bool?) && Has(t, WordText(v), i)
    ensures i <= |t| && Value(t, comments, i) == Ok(v, i + |WordText(v)|)
  {
    hide Value, Has;
    HasInside(t, WordText(v), i);
    WordBack(t, comments, i, WordText(v), v);
  }

  lemma TextRead(t: string, comments: bool, i: nat, units: Units)
    requires UnitsOk(units) && Has(t, ElementText(AString(units)), i)
    ensures i <= |t|
    ensures Reads(t, comments, Value(t, comments, i), ElementOf(AString(units)), i + |ElementText(AString(units))|)
  {
    hide StringRest, Closed, Has, UnitsOk, StringResult, FullString, Array, Object;
    HasPart(t, i, "\"", Closed(units));
    HasChar(t, "\"", i, 0);
    StringRead(t, i + 1, units, 0);
    NameResult(units, i + 1 + |Closed(units)|);
  }

  lemma EmptyOnes(blank: Space)
    requires SpaceOk(blank)
    ensures ElementOf(AnArray(blank, NoItems)) == Some(Arr([]))
    ensures ElementOf(AnObject(blank, NoMembers)) == Some(Obj([], []))
    ensures ElementText(AnArray(blank, NoItems)) == "[" + (SpaceText(blank) + "]")
    ensures ElementText(AnObject(blank, NoMembers)) == "{" + (SpaceText(blank) + "}")
  {
    assert ItemsOf(NoItems) == Some([]) && MembersOf(NoMembers) == Some(([], []));
  }

  lemma EmptyArray(t: string, comments: bool, i: nat, blank: Space)
    requires SpaceOk(blank) && (comments || Quiet(blank)) && Has(t, ElementText(AnArray(blank, NoItems)), i)
    ensures var e := AnArray(blank, NoItems);
            && i <= |t|
            && Reads(t, comments, Value(t, comments, i), ElementOf(e), i + |ElementText(e)|)
  {
    hide Skip, Has, SpaceOk, SpaceText, Object, ElementOf, ElementText;
    EmptyOnes(blank);
    HasPart(t, i, "[", SpaceText(blank) + "]");
    HasChar(t, "[", i, 0);
    HasPart(t, i + 1, SpaceText(blank), "]");
    HasChar(t, "]", i + 1 + |SpaceText(blank)|, 0);
    SkipTo(t, comments, i + 1, blank);
  }

  lemma EmptyObject(t: string, comments: bool, i: nat, blank: Space)
    requires SpaceOk(blank) && (comments || Quiet(blank)) && Has(t, ElementText(AnObject(blank, NoMembers)), i)
    ensures var e := AnObject(blank, NoMembers);
            && i <= |t|
            && Reads(t, comments, Value(t, comments, i), ElementOf(e), i + |ElementText(e)|)
  {
    hide Skip, Has, SpaceOk, SpaceText, Array, ElementOf, ElementText;
    EmptyOnes(blank);
    HasPart(t, i, "{", SpaceText(blank) + "}");
    HasChar(t, "{", i, 0);
    HasPart(t, i + 1, SpaceText(blank), "}");
    HasChar(t, "}", i + 1 + |SpaceText(blank)|, 0);
    SkipTo(t, comments, i + 1, blank);
  }

  lemma ArrayBegins(t: string, comments: bool, i: nat, blank: Space, items: Items, end: nat)
    requires i < |t| && t[i] == '[' && ElementOk(AnArray(blank, items))
    requires Array(t, comments, i + 1, [], false) == ItemsResult(items, [], end)
    ensures Reads(t, comments, Value(t, comments, i), ElementOf(AnArray(blank, items)), end)
  {
    hide Array, Object, ItemsOf, ItemsOk;
    var vs := ItemsOf(items);
    assert vs.Some? ==> [] + vs.value == vs.value;
  }

  lemma ObjectBegins(t: string, comments: bool, i: nat, blank: Space, members: Members, end: nat)
    requires i < |t| && t[i] == '{' && ElementOk(AnObject(blank, members))
    requires Object(t, comments, i + 1, [], [], false) == MembersResult(members, [], [], end)
    ensures Reads(t, comments, Value(t, comments, i), ElementOf(AnObject(blank, members)), end)
  {
    hide Array, Object, MembersOf, MembersOk;
    var ms := MembersOf(members);
    assert ms.Some? ==> [] + ms.value.0 == ms.value.0 && [] + ms.value.1 == ms.value.1;
  }

  // ------------------------------------------------------------------- the theorem

  /** A comment in the last line, which nothing ends. */
  function LastNote(last: Option<string>): string {
    if last.Some? then "//" + last.value else ""
  }

  function Text(before: Space, e: Element, after: Space, last: Option<string>): string {
    SpaceText(before) + (ElementText(e) + (SpaceText(after) + LastNote(last)))
  }

  predicate TextOk(before: Space, e: Element, after: Space, last: Option<string>) {
    ElementOk(e) && SpaceOk(before) && SpaceOk(after) && (last.Some? ==> LineText(last.value))
  }

  predicate TextQuiet(before: Space, e: Element, after: Space, last: Option<string>) {
    Quiet(before) && ElementQuiet(e) && Quiet(after) && last.None?
  }

  /** The value of a text, if it is taken. */
  function TextOf(e: Element, after: Space, last: Option<string>): Option<Json>
    requires ElementOk(e)
  {
    if e.ANumber? && (NoteFirst(after) || (after == NoSpace && last.Some?)) then None else ElementOf(e)
  }

  /** A text of RFC 8259, with comments if they are enabled, is accepted, with the value it stands
      for, if and only if it is not one of the exceptions. */
  lemma StandardRead(before: Space, e: Element, after: Space, last: Option<string>, comments: bool)
    requires TextOk(before, e, after, last) && (comments || TextQuiet(before, e, after, last))
    ensures Document(Text(before, e, after, last), comments) == TextOf(e, after, last)
  {
    hide Document, ElementText, ElementOf, ElementOk, Has, SpaceOk, SpaceText, ElementQuiet, LineText;
    hide Value, Skip, Reads, StartsValue, Follows, Stuck, Ends;
    hide Text, LastNote, Taken;
    var t, k := Text(before, e, after, last), |SpaceText(before)|;
    var end := k + |ElementText(e)|;
    TextParts(before, e, after, last);
    ElementStarts(e);
    FirstAt(t, k, ElementText(e));
    SkipTo(t, comments, 0, before);
    TextEnds(t, comments, end, after, last);
    var slash := NoteFirst(after) || (after == NoSpace && last.Some?);
    ElementTaken(t, comments, k, e, slash);
    var r := Value(t, comments, k);
    ReadCases(t, comments, r, TextOf(e, after, last), end);
    WholeRead(t, comments, k, r);
    if TextOf(e, after, last).None? && r.Ok? {
      StuckEnds(t, comments, r);
    }
  }

  lemma TextParts(before: Space, e: Element, after: Space, last: Option<string>)
    ensures var t, k := Text(before, e, after, last), |SpaceText(before)|; var end := k + |ElementText(e)|;
            && Has(t, SpaceText(before), 0) && Has(t, ElementText(e), k) && Has(t, SpaceText(after), end)
            && Has(t, LastNote(last), end + |SpaceText(after)|)
            && |t| == end + |SpaceText(after)| + |LastNote(last)|
  {
    hide Has, SpaceText, ElementText, LastNote;
    HasAll(Text(before, e, after, last));
    FourParts(Text(before, e, after, last), 0, SpaceText(before), ElementText(e), SpaceText(after), LastNote(last));
  }

  lemma WholeRead(t: string, comments: bool, k: nat, r: Parsed<Json>)
    requires k <= |t| && Skip(t, comments, 0) == Some(k) && r == Value(t, comments, k)
    ensures Document(t, comments) == if r.Ok? && Ends(t, comments, r.pos) then Some(r.value) else None
  {
    hide Skip, Value, Ends;
  }

  /** Only white space and comments follow. */
  lemma TextEnds(t: string, comments: bool, i: nat, after: Space, last: Option<string>)
    requires Has(t, SpaceText(after), i) && SpaceOk(after) && Has(t, LastNote(last), i + |SpaceText(after)|)
    requires (last.Some? ==> LineText(last.value)) && (comments || (Quiet(after) && last.None?))
    requires i + |SpaceText(after)| + |LastNote(last)| == |t|
    ensures Ends(t, comments, i)
    ensures if NoteFirst(after) || (after == NoSpace && last.Some?) then At(t, i) == '/' else Follows(At(t, i))
  {
    hide Skip, Has, SpaceText, SpaceOk, LineText, LastNote, Follows;
    var k := i + |SpaceText(after)|;
    SpaceRead(t, comments, i, after);
    LastSkipped(t, comments, k, last);
    SpaceFollows(t, i, after, At(t, k));
    if after == NoSpace {
      NothingBefore(i);
    } else if !NoteFirst(after) {
      FirstKind(t, i, after);
    }
  }

  lemma NothingBefore(i: nat)
    ensures |SpaceText(NoSpace)| == 0 && Follows(NUL)
  {
  }

  lemma LastSkipped(t: string, comments: bool, k: nat, last: Option<string>)
    requires Has(t, LastNote(last), k) && k + |LastNote(last)| == |t|
    requires (last.Some? ==> comments && LineText(last.value))
    ensures Skip(t, comments, k) == Some(|t|) && At(t, |t|) == NUL
    ensures At(t, k) == if last.Some? then '/' else NUL
  {
    hide Skip, Has, LineText;
    if last.Some? {
      HasPart(t, k, "//", last.value);
      HasChar(t, "//", k, 0);
      HasChar(t, "//", k, 1);
      SkipsLine(t, k);
      LineRead(t, k + 2, last.value);
    }
    SkipNone(t, comments, |t|);
  }

  lemma FirstKind(t: string, i: nat, s: Space)
    requires Has(t, SpaceText(s), i) && SpaceOk(s) && s != NoSpace && !NoteFirst(s)
    ensures Follows(At(t, i))
  {
    HasChar(t, SpaceText(s), i, 0);
  }

  lemma StuckEnds(t: string, comments: bool, r: Parsed<Json>)
    requires Stuck(t, comments, r) && r.Ok? && r.pos <= |t|
    ensures !Ends(t, comments, r.pos)
  {
    SkipStuck(t, comments, r.pos);
    hide Skip;
  }

  /** A point, or a slash that is no comment, is what comes next. */
  lemma SkipStuck(t: string, comments: bool, i: nat)
    requires i <= |t| && (At(t, i) == '.' || (!comments && At(t, i) == '/'))
    ensures Skip(t, comments, i) == Some(i)
  {
  }

  /** The three bytes of a byte order mark are skipped, once. */
  lemma MarkSkipped(t: string)
    ensures SkipMark("\U{EF}\U{BB}\U{BF}" + t) == t
  {
    assert ("\U{EF}\U{BB}\U{BF}" + t)[3..] == t;
  }

  /** A text of the standard has no byte order mark. */
  lemma NoMark(before: Space, e: Element, after: Space, last: Option<string>)
    requires TextOk(before, e, after, last)
    ensures SkipMark(Text(before, e, after, last)) == Text(before, e, after, last)
  {
    hide ElementText;
    ElementStarts(e);
  }

  lemma Alone(e: Element)
    ensures Text(NoSpace, e, NoSpace, None) == ElementText(e)
  {
    hide ElementText;
  }

  /** The exception for numbers is met: a fraction makes every integer beyond INT64_MAX a text
      that is refused. */
  lemma LargeFraction(n: nat, frac: string, comments: bool)
    requires AllDigits(frac)
    ensures Document(Digits(n) + FractionText(frac), comments)
         == if frac == "" then Some(if n <= 0x7FFF_FFFF_FFFF_FFFF then Int(n) else DOUBLE)
            else if n <= 0x7FFF_FFFF_FFFF_FFFF then Some(DOUBLE) else None
  {
    hide Document, Amount, Digits, AllDigits, Text;
    DigitsAmount(n);
    var e := ANumber(false, Digits(n), frac, NoExponent);
    StandardRead(NoSpace, e, NoSpace, None, comments);
    Alone(e);
    assert ElementText(e) == Digits(n) + FractionText(frac);
  }

  /** The exception for strings is met. */
  lemma LoneSurrogate(comments: bool)
    ensures Document("\"\\uD800x\"", comments) == None
  {
    hide Document, ElementText, ElementOf, FullString, UnitsOk, Closed;
    var e := AString(More(Code("D800"), More(Plain('x'), Close)));
    SurrogateAlone();
    StandardRead(NoSpace, e, NoSpace, None, comments);
    Alone(e);
    assert ElementText(e) == "\"\\uD800x\"";
  }

  lemma SurrogateAlone()
    ensures var e := AString(More(Code("D800"), More(Plain('x'), Close)));
            ElementOk(e) && ElementOf(e) == None && ElementText(e) == "\"\\uD800x\""
  {
    var hex := "D800";
    var units := More(Code(hex), More(Plain('x'), Close));
    assert HexValue(hex[0]) == Some(13) && HexValue(hex[1]) == Some(8);
    assert CodeOf(hex) == 0xD800;
    assert UnitsOk(units) && Piece(units) == None;
  }

  /** The parser takes more than the standard: a lone minus sign, a final comma. */
  lemma MinusAlone(comments: bool)
    ensures Document("-", comments) == Some(Int(0))
  {
  }

  lemma FinalComma(comments: bool)
    ensures Document("[0,]", comments) == Some(Arr([Int(0)]))
  {
    hide Array, Skip, Number, Document;
    var t := "[0,]";
    SkipNone(t, comments, 0);
    SkipNone(t, comments, 1);
    SkipNone(t, comments, 2);
    ZeroBack(t, comments, 1);
    ArrayStep(t, comments, 1, 1, []);
    assert [] + [Int(0)] == [Int(0)];
    ArrayNext(t, comments, 2, 2, [Int(0)]);
    ArrayCloses(t, comments, 3, [Int(0)]);
    SkipNone(t, comments, 4);
    assert Value(t, comments, 0) == Array(t, comments, 1, [], false);
    WholeRead(t, comments, 0, Value(t, comments, 0));
  }

  /** So is a string with any character in it, also a control character, and with a backslash in
      front of any character. */
  lemma AnyCharacter(c: char, comments: bool)
    requires c != '\0'
    ensures c != '"' && c != '\\' ==> Document("\"" + [c] + "\"", comments) == Some(Str([c]))
    ensures c !in "bfnrtu" ==> Document("\"\\" + [c] + "\"", comments) == Some(Str([c]))
  {
    hide Skip, Document, Value, StringRest, Ends;
    if c != '"' && c != '\\' {
      var t := "\"" + [c] + "\"";
      PlainAlone(t, c);
      StringAlone(t, comments, 3, c);
    }
    if c !in "bfnrtu" {
      var t := "\"\\" + [c] + "\"";
      EscapeAlone(t, c);
      StringAlone(t, comments, 4, c);
    }
  }

  lemma PlainAlone(t: string, c: char)
    requires t == "\"" + [c] + "\"" && c != '"' && c != '\\' && c != '\0'
    ensures StringRest(t, 1, 0) == Ok([c], 3)
  {
    assert t[1] == c && t[2] == '"' && [c] + "" == [c];
    assert StringRest(t, 2, 1) == Ok("", 3);
    hide Escape;
  }

  lemma EscapeAlone(t: string, c: char)
    requires t == "\"\\" + [c] + "\"" && c !in "bfnrtu" && c != '\0'
    ensures StringRest(t, 1, 0) == Ok([c], 4)
  {
    hide UnicodeEscape, Utf8;
    assert t[1] == '\\' && t[2] == c && t[3] == '"' && [c] + "" == [c];
    assert StringRest(t, 3, 1) == Ok("", 4);
    var special := "bfnrtu";
    assert special[0] == 'b' && special[1] == 'f' && special[2] == 'n' && special[3] == 'r' && special[4] == 't';
    assert special[5] == 'u';
    assert Escape(t, 2) == Ok([c], 3);
  }

  lemma StringAlone(t: string, comments: bool, end: nat, c: char)
    requires |t| == end > 0 && t[0] == '"' && StringRest(t, 1, 0) == Ok([c], end)
    ensures Document(t, comments) == Some(Str([c]))
  {
    SkipNone(t, comments, 0);
    SkipNone(t, comments, end);
    hide Skip, StringRest, Array, Object, Number, Literal;
  }

  lemma ZeroBack(t: string, comments: bool, i: nat)
    requires i + 1 < |t| && t[i] == '0' && t[i + 1] == ','
    ensures Value(t, comments, i) == Ok(Int(0), i + 1)
  {
    hide Array, Object, FractionRest, ExponentRest;
    assert IntegerRest(t, comments, i + 1, false, 0, 1, true) == Ok(Int(0), i + 1);
  }

  lemma ArrayCloses(t: string, comments: bool, i: nat, done: seq<Json>)
    requires i < |t| && t[i] == ']'
    ensures Array(t, comments, i, done, false) == Ok(Arr(done), i + 1)
  {
    hide Value;
  }
}
