/** Parsing a printed database gives the database back. */
module IdInverse {
  import opened Wrappers
  import opened Hex
  import opened IdHash
  import opened IdList
  import opened IdPrint

  // -------------------------------------------------------------- items one by one

  /** Each item can stand after the one before it. */
  predicate Chain(st: State, items: seq<Item>)
    decreases |items|
  {
    items == [] || (Follows(st, items[0]) && Chain(After(st, items[0]), items[1..]))
  }

  function AfterAll(st: State, items: seq<Item>): State
    decreases |items|
  {
    if items == [] then st else AfterAll(After(st, items[0]), items[1..])
  }

  lemma {:induction false} ChainAppend(st: State, a: seq<Item>, b: seq<Item>)
    requires Chain(st, a) && Chain(AfterAll(st, a), b)
    ensures Chain(st, a + b) && AfterAll(st, a + b) == AfterAll(AfterAll(st, a), b)
    decreases |a|
  {
    if a == [] {
      assert a + b == b;
    } else {
      assert (a + b)[1..] == a[1..] + b;
      ChainAppend(After(st, a[0]), a[1..], b);
    }
  }

  lemma {:induction false} LeavesChain(st: State, cat: Category, id1: int, id2: int, leaves: seq<Leaf>)
    requires cat == Subsystem || cat == ProgIf
    requires st.id1 == id1 && st.id2 == id2
    requires st.cat in [Some(if cat == Subsystem then Device else Subclass), Some(cat)]
    ensures Chain(st, LeafItems(cat, id1, id2, leaves))
    ensures var after := AfterAll(st, LeafItems(cat, id1, id2, leaves));
            after.id1 == id1 && after.cat in [Some(if cat == Subsystem then Device else Subclass), Some(cat)]
    decreases |leaves|
  {
    if leaves != [] {
      var items := LeafItems(cat, id1, id2, leaves);
      assert items[1..] == LeafItems(cat, id1, id2, leaves[1..]);
      LeavesChain(After(st, items[0]), cat, id1, id2, leaves[1..]);
    }
  }

  lemma {:induction false} InnerChain(st: State, cat: Category, leaf: Category, id1: int, inner: seq<Inner>)
    requires (cat == Device && leaf == Subsystem) || (cat == Subclass && leaf == ProgIf)
    requires st.id1 == id1 && st.cat in [Some(if cat == Device then Vendor else Class), Some(cat), Some(leaf)]
    ensures Chain(st, InnerItems(cat, leaf, id1, inner))
    decreases |inner|
  {
    hide LeafItems, InnerItems, Chain, AfterAll;
    if inner == [] {
      NoneChain(st, cat, leaf, id1);
    } else {
      var head := Row(State(Some(cat), id1, inner[0].id, 0, 0), inner[0].name);
      var leaves := LeafItems(leaf, id1, inner[0].id, inner[0].leaves);
      var rest := InnerItems(cat, leaf, id1, inner[1..]);
      LeavesChain(head.st, leaf, id1, inner[0].id, inner[0].leaves);
      InnerChain(AfterAll(head.st, leaves), cat, leaf, id1, inner[1..]);
      ChainAppend(head.st, leaves, rest);
      InnerFirst(cat, leaf, id1, inner);
      ChainFirst(st, head, leaves + rest);
    }
  }

  lemma NoneChain(st: State, cat: Category, leaf: Category, id1: int)
    ensures Chain(st, InnerItems(cat, leaf, id1, []))
  {
  }

  lemma InnerFirst(cat: Category, leaf: Category, id1: int, inner: seq<Inner>)
    requires inner != []
    ensures InnerItems(cat, leaf, id1, inner)
         == [Row(State(Some(cat), id1, inner[0].id, 0, 0), inner[0].name)]
            + (LeafItems(leaf, id1, inner[0].id, inner[0].leaves) + InnerItems(cat, leaf, id1, inner[1..]))
  {
    hide LeafItems;
  }

  lemma ChainFirst(st: State, item: Item, rest: seq<Item>)
    requires Follows(st, item) && Chain(After(st, item), rest)
    ensures Chain(st, [item] + rest)
  {
    hide Follows, After;
    assert ([item] + rest)[1..] == rest;
  }

  lemma {:induction false} GenericChain(st: State, vendor: int, subsystems: seq<Leaf>)
    requires st.cat == Some(GenSubsystem) && st.id1 == vendor
    ensures Chain(st, GenericItems(vendor, subsystems))
    decreases |subsystems|
  {
    if subsystems != [] {
      var items := GenericItems(vendor, subsystems);
      assert items[1..] == GenericItems(vendor, subsystems[1..]);
      GenericChain(After(st, items[0]), vendor, subsystems[1..]);
    }
  }

  /** The items of a database stand in their sections. */
  lemma {:induction false} ItemsChain(st: State, db: seq<Section>)
    ensures Chain(st, Items(db))
    decreases |db|
  {
    if db != [] {
      var items := SectionItems(db[0]);
      match db[0] {
        case VendorSection(id, name, devices) =>
          InnerChain(items[0].st, Device, Subsystem, id, devices);
          assert items[1..] == InnerItems(Device, Subsystem, id, devices);
        case ClassSection(id, name, subclasses) =>
          InnerChain(items[0].st, Subclass, ProgIf, id, subclasses);
          assert items[1..] == InnerItems(Subclass, ProgIf, id, subclasses);
        case GenericSection(vendor, subsystems) =>
          GenericChain(After(st, items[0]), vendor, subsystems);
          assert items[1..] == GenericItems(vendor, subsystems);
      }
      assert Chain(st, items);
      ItemsChain(AfterAll(st, items), db[1..]);
      ChainAppend(st, items, Items(db[1..]));
    }
  }

  // --------------------------------------------------------------- what is loaded

  predicate ItemsOk(items: seq<Item>) {
    forall i | 0 <= i < |items| :: ItemOk(items[i])
  }

  function ItemKey(i: Item): Key
    requires ItemOk(i) && i.Row?
  {
    KeyOf(i.st)
  }

  /** No identifier is named twice, and each generic section is for a vendor named before. */
  predicate Consistent(items: seq<Item>)
    requires ItemsOk(items)
  {
    && (forall i, j | 0 <= i < j < |items| && items[i].Row? && items[j].Row? :: ItemKey(items[i]) != ItemKey(items[j]))
    && (forall j | 0 <= j < |items| && items[j].Generic? :: VendorNamed(items[..j], items[j].vendor))
  }

  predicate VendorNamed(items: seq<Item>, vendor: int) {
    exists i :: 0 <= i < |items| && items[i].Row? && items[i].st == State(Some(Vendor), vendor, 0, 0, 0)
  }

  /** The names of the items, by identifier. */
  function NamesOf(items: seq<Item>): map<Key, Stored>
    requires ItemsOk(items)
  {
    if items == [] then map[]
    else
      var init, last := items[..|items| - 1], items[|items| - 1];
      if last.Row? then NamesOf(init)[ItemKey(last) := Stored(FromLocal, last.name)] else NamesOf(init)
  }

  /** Whatever is named is named by an item. */
  lemma {:induction false} NamedBy(items: seq<Item>, k: Key) returns (i: nat)
    requires ItemsOk(items) && k in NamesOf(items)
    ensures i < |items| && items[i].Row? && ItemKey(items[i]) == k
    ensures NamesOf(items)[k] == Stored(FromLocal, items[i].name)
    decreases |items|
  {
    var init, last := items[..|items| - 1], items[|items| - 1];
    if last.Row? && ItemKey(last) == k {
      i := |items| - 1;
    } else {
      i := NamedBy(init, k);
    }
  }

  /** Every item is named. */
  lemma {:induction false} IsNamed(items: seq<Item>, i: nat)
    requires ItemsOk(items) && i < |items| && items[i].Row?
    ensures ItemKey(items[i]) in NamesOf(items)
    decreases |items|
  {
    if i < |items| - 1 {
      IsNamed(items[..|items| - 1], i);
    }
  }

  /** Exactly the items are named. */
  lemma NamesExact(items: seq<Item>)
    requires ItemsOk(items) && Consistent(items)
    ensures forall k | k in NamesOf(items) :: exists i :: 0 <= i < |items| && items[i].Row? && ItemKey(items[i]) == k
    ensures forall i | 0 <= i < |items| && items[i].Row? ::
              ItemKey(items[i]) in NamesOf(items)
                  && NamesOf(items)[ItemKey(items[i])] == Stored(FromLocal, items[i].name)
  {
    hide NamesOf, ItemKey;
    forall k | k in NamesOf(items)
      ensures exists i :: 0 <= i < |items| && items[i].Row? && ItemKey(items[i]) == k
    {
      var i := NamedBy(items, k);
    }
    forall i | 0 <= i < |items| && items[i].Row?
      ensures ItemKey(items[i]) in NamesOf(items)
      ensures NamesOf(items)[ItemKey(items[i])] == Stored(FromLocal, items[i].name)
    {
      IsNamed(items, i);
      var j := NamedBy(items, ItemKey(items[i]));
      assert i == j;
    }
  }

  /** Taking the items one by one, from number k on, when those before are named. */
  function Load(items: seq<Item>, k: nat, st: State, known: map<Key, Stored>): Result
    requires ItemsOk(items) && k <= |items|
    decreases |items| - k
  {
    if k == |items| then Loaded(st, known)
    else if items[k].Row? then
      var key := ItemKey(items[k]);
      if key in known then Failed(DUPLICATE, known)
      else Load(items, k + 1, After(st, items[k]), known[key := Stored(FromLocal, items[k].name)])
    else if KnownVendor(items[k].vendor, known) then Load(items, k + 1, After(st, items[k]), known)
    else Failed(NO_VENDOR, known)
  }

  /** A vendor can be looked up among the names when it has been named. */
  lemma VendorKnown(items: seq<Item>, vendor: int)
    requires ItemsOk(items) && Hex4(vendor)
    ensures KnownVendor(vendor, NamesOf(items)) <==> VendorNamed(items, vendor)
  {
    var k := MakeKey(Vendor, vendor, 0, 0, 0);
    if k in NamesOf(items) {
      var i := NamedBy(items, k);
      var st := items[i].st;
      KeysDiffer(st.cat.value, st.id1, st.id2, st.id3, st.id4, Vendor, vendor, 0, 0, 0);
    }
    if VendorNamed(items, vendor) {
      var i :| 0 <= i < |items| && items[i].Row? && items[i].st == State(Some(Vendor), vendor, 0, 0, 0);
      IsNamed(items, i);
      assert ItemKey(items[i]) == k;
    }
  }

  /** Loading succeeds exactly when the items are consistent, and then names them all. */
  lemma {:induction false} LoadExact(items: seq<Item>, k: nat, st: State)
    requires ItemsOk(items) && k <= |items| && Consistent(items[..k])
    ensures var r := Load(items, k, st, NamesOf(items[..k]));
            && (r.Loaded? <==> Consistent(items))
            && (r.Loaded? ==> r.known == NamesOf(items))
    decreases |items| - k
  {
    hide Consistent;
    if k == |items| {
      assert items[..k] == items;
    } else {
      var next := items[..k + 1];
      assert next[..k] == items[..k] && next[k] == items[k];
      ConsistentStep(items, k);
      if items[k].Generic? {
        VendorKnown(items[..k], items[k].vendor);
      } else if ItemKey(items[k]) in NamesOf(items[..k]) {
        var i := NamedBy(items[..k], ItemKey(items[k]));
      } else {
        forall i | 0 <= i < k && items[i].Row?
          ensures ItemKey(items[i]) != ItemKey(items[k])
        {
          IsNamed(items[..k], i);
          assert items[..k][i] == items[i];
        }
      }
      if Consistent(next) {
        LoadExact(items, k + 1, After(st, items[k]));
      }
    }
  }

  /** One more item is consistent when it is new, or for a vendor that has been named. */
  lemma ConsistentStep(items: seq<Item>, k: nat)
    requires ItemsOk(items) && k < |items| && Consistent(items[..k])
    ensures Consistent(items) ==> Consistent(items[..k + 1])
    ensures Consistent(items[..k + 1]) <==>
            if items[k].Row? then forall i | 0 <= i < k && items[i].Row? :: ItemKey(items[i]) != ItemKey(items[k])
            else VendorNamed(items[..k], items[k].vendor)
  {
    hide ItemOk, ItemKey, VendorNamed;
    var next, now := items[..k + 1], items[..k];
    assert forall i | 0 <= i <= k :: next[i] == items[i];
    assert forall i | 0 <= i < k :: now[i] == items[i];
    assert forall j | 0 <= j <= k :: next[..j] == items[..j];
    assert forall j | 0 <= j < k :: now[..j] == items[..j];
  }

  // ------------------------------------------------------------------ lines and files

  /** A gap of one or more spaces for each item. */
  predicate GapsOk(items: seq<Item>, gaps: seq<nat>) {
    |gaps| == |items| && forall i | 0 <= i < |gaps| :: gaps[i] >= 1
  }

  function LinesOf(items: seq<Item>, gaps: seq<nat>): seq<string>
    requires ItemsOk(items) && GapsOk(items, gaps)
  {
    seq(|items|, i requires 0 <= i < |items| => Line(items[i], gaps[i]))
  }

  /** The lines that are neither blank nor comments. */
  function Significant(lines: seq<string>): seq<string> {
    if lines == [] then []
    else (if Ignored(Trimmed(lines[0])) then [] else [lines[0]]) + Significant(lines[1..])
  }

  predicate AllClean(lines: seq<string>) {
    forall i | 0 <= i < |lines| :: Clean(lines[i])
  }

  /** The lines one by one. */
  function ParseLines(lines: seq<string>, st: State, known: map<Key, Stored>): Result
    requires AllClean(lines) && StateOk(st)
    decreases |lines|
  {
    if lines == [] then Loaded(st, known)
    else
      var r := OneLine(st, Trimmed(lines[0]), known);
      if r.Failed? then r else ParseLines(lines[1..], r.st, r.known)
  }

  /** Printed lines are not taken for comments. */
  lemma {:induction false} PrintedIsSignificant(items: seq<Item>, gaps: seq<nat>)
    requires ItemsOk(items) && GapsOk(items, gaps)
    ensures AllClean(LinesOf(items, gaps)) && Significant(LinesOf(items, gaps)) == LinesOf(items, gaps)
    decreases |items|
  {
    if items != [] {
      var lines := LinesOf(items, gaps);
      assert lines[1..] == LinesOf(items[1..], gaps[1..]);
      PrintedIsSignificant(items[1..], gaps[1..]);
      assert forall i | 0 < i < |lines| :: lines[i] == LinesOf(items[1..], gaps[1..])[i - 1];
      LineClean(items[0], gaps[0]);
      NotIgnored(items[0], gaps[0]);
    }
  }

  lemma NotIgnored(i: Item, gap: nat)
    requires ItemOk(i) && gap >= 1 && Clean(Line(i, gap))
    ensures !Ignored(Line(i, gap))
  {
    if i.Generic? {
      assert Line(i, gap)[0] == 'S';
    } else {
      var before := if i.st.cat == Some(Device) || i.st.cat == Some(Subsystem) || i.st.cat == Some(GenSubsystem)
        then State(Some(if i.st.cat == Some(GenSubsystem) then GenSubsystem else Device), i.st.id1, i.st.id2, 0, 0)
        else State(Some(Subclass), i.st.id1, i.st.id2, 0, 0);
      LineBack(before, i, gap, map[]);
    }
  }

  lemma TrimmedClean(line: string)
    requires Clean(line)
    ensures NUL !in Trimmed(line)
  {
  }

  lemma IgnoredLine(st: State, line: string, known: map<Key, Stored>)
    requires NUL !in line && StateOk(st) && Ignored(line)
    ensures OneLine(st, line, known) == Loaded(st, known)
  {
  }

  lemma SignificantFirst(lines: seq<string>)
    ensures Significant(lines)
         == if lines == [] then []
            else if Ignored(Trimmed(lines[0])) then Significant(lines[1..])
            else [lines[0]] + Significant(lines[1..])
  {
    hide Ignored, Trimmed;
  }

  lemma LinesFrom(items: seq<Item>, gaps: seq<nat>, k: nat)
    requires ItemsOk(items) && GapsOk(items, gaps) && k <= |items|
    ensures LinesOf(items[k..], gaps[k..])
         == if k == |items| then [] else [Line(items[k], gaps[k])] + LinesOf(items[k + 1..], gaps[k + 1..])
  {
    hide ItemOk, Line;
    if k < |items| {
      assert items[k..] == [items[k]] + items[k + 1..] && gaps[k..] == [gaps[k]] + gaps[k + 1..];
    }
  }

  /** The next line is that of the next item. */
  lemma SameFirst(line: string, rest: seq<string>, items: seq<Item>, gaps: seq<nat>, k: nat)
    requires ItemsOk(items) && GapsOk(items, gaps) && k <= |items|
    requires [line] + rest == LinesOf(items[k..], gaps[k..])
    ensures k < |items| && line == Line(items[k], gaps[k]) && rest == LinesOf(items[k + 1..], gaps[k + 1..])
  {
    hide ItemOk, Line, LinesOf;
    LinesFrom(items, gaps, k);
    var all := [line] + rest;
    assert all[0] == line && all[1..] == rest;
  }

  lemma ChainNext(st: State, items: seq<Item>, k: nat)
    requires k < |items| && Chain(st, items[k..])
    ensures Follows(st, items[k]) && Chain(After(st, items[k]), items[k + 1..])
  {
    hide Follows, After;
    assert items[k..][1..] == items[k + 1..];
  }

  /** Whatever comments stand between them, the lines of the items load the items. */
  lemma {:induction false} LinesLoad(lines: seq<string>, items: seq<Item>, k: nat, gaps: seq<nat>, st: State,
                                     known: map<Key, Stored>)
    requires ItemsOk(items) && GapsOk(items, gaps) && k <= |items| && AllClean(lines) && StateOk(st)
    requires Significant(lines) == LinesOf(items[k..], gaps[k..]) && Chain(st, items[k..])
    ensures ParseLines(lines, st, known) == Load(items, k, st, known)
    decreases |lines|
  {
    hide ItemOk, Clean, ParseLine, Line, Follows, KnownVendor, Trimmed, Ignored, LinesOf, Significant, Chain;
    SignificantFirst(lines);
    LinesFrom(items, gaps, k);
    if lines != [] {
      var line := Trimmed(lines[0]);
      TrimmedClean(lines[0]);
      if Ignored(line) {
        IgnoredLine(st, line, known);
        LinesLoad(lines[1..], items, k, gaps, st, known);
      } else {
        SameFirst(lines[0], Significant(lines[1..]), items, gaps, k);
        ChainNext(st, items, k);
        LineClean(items[k], gaps[k]);
        LineBack(st, items[k], gaps[k], known);
        var r := OneLine(st, line, known);
        if r.Loaded? {
          LinesLoad(lines[1..], items, k + 1, gaps, r.st, r.known);
        }
      }
    }
  }

  /** The file of some lines, each with its end. */
  function Joined(lines: seq<string>, eols: seq<string>): string
    requires |eols| == |lines|
  {
    if lines == [] then "" else lines[0] + eols[0] + Joined(lines[1..], eols[1..])
  }

  predicate IsEol(eol: string) {
    eol == "\n" || eol == "\r\n"
  }

  /** Every line has an end, except perhaps the last one if it is not empty, and fits the
      buffer of the reader with it. */
  predicate Ended(lines: seq<string>, eols: seq<string>) {
    && |eols| == |lines|
    && forall i | 0 <= i < |lines| ::
         if i == |lines| - 1 && eols[i] == "" then 0 < |lines[i]| < MAX_LINE - 1
         else IsEol(eols[i]) && |lines[i]| + |eols[i]| < MAX_LINE
  }

  /** A line is read as it stands. */
  lemma LineRead(pre: string, line: string, eol: string, rest: string)
    requires Clean(line) && IsEol(eol) && |line| + |eol| < MAX_LINE
    ensures var text := pre + (line + eol + rest);
            LineLength(text, |pre|) == |line| + |eol| && LineAt(text, |pre|) == Some(Trimmed(line))
  {
    hide LineLengthFrom, LineEndFrom, Trimmed;
    var text, raw := pre + (line + eol + rest), line + eol;
    OnlyNewline(line, eol);
    Length(pre, raw, rest, text);
    assert text[|pre|..|pre| + |raw|] == raw;
    EndOfLine(line, eol);
  }

  lemma OnlyNewline(line: string, eol: string)
    requires Clean(line) && IsEol(eol)
    ensures var raw := line + eol; raw[|raw| - 1] == '\n' && '\n' !in raw[..|raw| - 1]
  {
    if eol == "\n" {
      assert (line + eol)[..|line|] == line;
    } else {
      assert (line + eol)[..|line| + 1] == line + ['\r'];
    }
  }

  lemma Length(pre: string, raw: string, rest: string, text: string)
    requires text == pre + (raw + rest) && raw != "" && |raw| < MAX_LINE
    requires raw[|raw| - 1] == '\n' && '\n' !in raw[..|raw| - 1]
    ensures LineLength(text, |pre|) == |raw|
  {
    hide LineLength;
    var r := LineLength(text, |pre|);
    forall i | |pre| <= i < |pre| + |raw| - 1
      ensures text[i] != '\n'
    {
      assert text[i] == raw[i - |pre|] == raw[..|raw| - 1][i - |pre|];
    }
    assert text[|pre| + |raw| - 1] == '\n';
  }

  lemma EndOfLine(line: string, eol: string)
    requires Clean(line) && IsEol(eol)
    ensures LineEnd(line + eol) == |line| && At(line + eol, |line|) != NUL && (line + eol)[..|line|] == line
  {
    hide LineEndFrom;
    var raw := line + eol;
    assert raw[|line|] == eol[0] && forall i | 0 <= i < |line| :: raw[i] == line[i];
  }

  /** So is a last line without an end. */
  lemma LastRead(pre: string, line: string)
    requires Clean(line) && 0 < |line| < MAX_LINE - 1
    ensures LineLength(pre + line, |pre|) == |line| && LineAt(pre + line, |pre|) == Some(Trimmed(line))
  {
    hide LineLengthFrom, LineEndFrom, Trimmed;
    var text := pre + line;
    assert forall i | |pre| <= i < |text| :: text[i] == line[i - |pre|];
    assert text[|pre|..|pre| + |line|] == line;
    assert LineEnd(line) == |line| && line[..|line|] == line;
  }

  lemma {:induction false} FileLines(pre: string, lines: seq<string>, eols: seq<string>, st: State,
                                     known: map<Key, Stored>)
    requires AllClean(lines) && Ended(lines, eols) && StateOk(st)
    ensures ParseText(pre + Joined(lines, eols), |pre|, st, known) == ParseLines(lines, st, known)
    decreases |lines|
  {
    hide LineLength, LineAt, OneLine, Trimmed, Clean, IsEol;
    if lines == [] {
      assert pre + Joined(lines, eols) == pre;
    } else {
      var rest := Joined(lines[1..], eols[1..]);
      TrimmedClean(lines[0]);
      var r := OneLine(st, Trimmed(lines[0]), known);
      assert pre + (lines[0] + eols[0] + rest) == pre + Joined(lines, eols);
      if eols[0] == "" && |lines| == 1 {
        LastRead(pre, lines[0]);
        assert pre + lines[0] == pre + Joined(lines, eols);
      } else {
        LineRead(pre, lines[0], eols[0], rest);
      }
      if r.Loaded? {
        var pre' := pre + lines[0] + eols[0];
        assert pre' + rest == pre + (lines[0] + eols[0] + rest);
        FileLines(pre', lines[1..], eols[1..], r.st, r.known);
      }
    }
  }

  /** A file that holds the lines of a database, among blank lines and comments, loads
      exactly when the database is consistent, and then the names are those of the
      database. */
  lemma ListInverse(db: seq<Section>, lines: seq<string>, eols: seq<string>, gaps: seq<nat>)
    requires ItemsOk(Items(db)) && GapsOk(Items(db), gaps)
    requires AllClean(lines) && Ended(lines, eols) && Significant(lines) == LinesOf(Items(db), gaps)
    ensures var r := ParseText(Joined(lines, eols), 0, START, map[]);
            && (r.Loaded? <==> Consistent(Items(db)))
            && (r.Loaded? ==> r.known == NamesOf(Items(db)))
  {
    var items := Items(db);
    ItemsChain(START, db);
    assert items[0..] == items && gaps[0..] == gaps && items[..0] == []
           && "" + Joined(lines, eols) == Joined(lines, eols);
    hide Items, Load, Chain, ParseText, ParseLines, Joined;
    FileLines("", lines, eols, START, map[]);
    LinesLoad(lines, items, 0, gaps, START, map[]);
    LoadExact(items, 0, START);
  }

  /** Loading the list anew. */
  method LoadNameList(t: Table, text: string) returns (err: Option<string>)
    requires t.Valid()
    modifies t, t.allocator, t.chains
    ensures t.Valid()
    ensures var r := ParseText(text, 0, START, map[]);
            t.stored == r.known && err == if r.Failed? then Some(r.error) else None
  {
    t.Free();
    err := ParseList(t, text);
  }
}
