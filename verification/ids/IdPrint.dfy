/** The ID list in its documented format (pci.ids.5), and the proof that parsing what is
    printed gives the database back. */
module IdPrint {
  import opened Wrappers
  import opened Hex
  import opened IdHash
  import opened IdList

  // ------------------------------------------------------------------ the database

  /** Entries as the format nests them. */
  datatype Leaf = Leaf(id1: int, id2: int, name: string)
  datatype Inner = Inner(id: int, name: string, leaves: seq<Leaf>)
  datatype Section =
    | VendorSection(id: int, name: string, devices: seq<Inner>)
    | ClassSection(id: int, name: string, subclasses: seq<Inner>)
    | GenericSection(vendor: int, subsystems: seq<Leaf>)

  /** A line of the list: an entry, or the head of a section of generic subsystems. */
  datatype Item = Row(st: State, name: string) | Generic(vendor: int)

  function LeafItems(cat: Category, id1: int, id2: int, leaves: seq<Leaf>): seq<Item> {
    if leaves == [] then []
    else
      var l := leaves[0];
      [Row(State(Some(cat), id1, id2, l.id1, if cat == Subsystem then l.id2 else 0), l.name)]
        + LeafItems(cat, id1, id2, leaves[1..])
  }

  function InnerItems(cat: Category, leaf: Category, id1: int, inner: seq<Inner>): seq<Item> {
    if inner == [] then []
    else
      [Row(State(Some(cat), id1, inner[0].id, 0, 0), inner[0].name)]
        + LeafItems(leaf, id1, inner[0].id, inner[0].leaves)
        + InnerItems(cat, leaf, id1, inner[1..])
  }

  function GenericItems(vendor: int, subsystems: seq<Leaf>): seq<Item> {
    if subsystems == [] then []
    else
      [Row(State(Some(GenSubsystem), vendor, subsystems[0].id1, 0, 0), subsystems[0].name)]
        + GenericItems(vendor, subsystems[1..])
  }

  function SectionItems(s: Section): seq<Item> {
    match s
    case VendorSection(id, name, devices) =>
      [Row(State(Some(Vendor), id, 0, 0, 0), name)] + InnerItems(Device, Subsystem, id, devices)
    case ClassSection(id, name, subclasses) =>
      [Row(State(Some(Class), id, 0, 0, 0), name)] + InnerItems(Subclass, ProgIf, id, subclasses)
    case GenericSection(vendor, subsystems) => [Generic(vendor)] + GenericItems(vendor, subsystems)
  }

  /** The database, entry by entry. */
  function Items(db: seq<Section>): seq<Item> {
    if db == [] then [] else SectionItems(db[0]) + Items(db[1..])
  }

  // ------------------------------------------------------------------------ printing

  function Spaces(n: nat): string {
    seq(n, _ => ' ')
  }

  /** A name that can stand on a line. */
  predicate NameOk(name: string) {
    && name != "" && !White(name[0]) && !White(name[|name| - 1])
    && NUL !in name && '\n' !in name && '\r' !in name
  }

  predicate Hex4(x: int) {
    0 <= x < 0x1_0000
  }

  predicate Hex2(x: int) {
    0 <= x < 0x100
  }

  /** What the format can express at this level. */
  predicate ItemOk(i: Item) {
    match i
    case Generic(vendor) => Hex4(vendor)
    case Row(st, name) =>
      NameOk(name) && st.cat.Some? &&
      match st.cat.value
      case Unknown => false
      case Vendor => Hex4(st.id1) && st.id2 == st.id3 == st.id4 == 0
      case Device => Hex4(st.id1) && Hex4(st.id2) && st.id3 == st.id4 == 0
      case Subsystem => Hex4(st.id1) && Hex4(st.id2) && Hex4(st.id3) && Hex4(st.id4)
      case GenSubsystem => Hex4(st.id1) && Hex4(st.id2) && st.id3 == st.id4 == 0
      case Class => Hex2(st.id1) && st.id2 == st.id3 == st.id4 == 0
      case Subclass => Hex2(st.id1) && Hex2(st.id2) && st.id3 == st.id4 == 0
      case ProgIf => Hex2(st.id1) && Hex2(st.id2) && Hex2(st.id3) && st.id4 == 0
  }

  /** What stands before the name on a line. */
  function Head(st: State): string
    requires ItemOk(Row(st, "x"))
  {
    match st.cat.value
    case Vendor => HexText(st.id1, 4)
    case Device => "\t" + HexText(st.id2, 4)
    case GenSubsystem => "\t" + HexText(st.id2, 4)
    case Subsystem => "\t\t" + HexText(st.id3, 4) + " " + HexText(st.id4, 4)
    case Class => "C " + HexText(st.id1, 2)
    case Subclass => "\t" + HexText(st.id2, 2)
    case ProgIf => "\t\t" + HexText(st.id3, 2)
  }

  /** The line of an item, with `gap` spaces before the name. */
  function Line(i: Item, gap: nat): string
    requires ItemOk(i)
  {
    match i
    case Row(st, name) => Head(st) + Spaces(gap) + name
    case Generic(vendor) => "S " + HexText(vendor, 4)
  }

  // ------------------------------------------------------------------ a line is read back

  /** Behind its head and the gap, the name is found. */
  lemma NameBack(line: string, p: nat, gap: nat, name: string, st: State)
    requires NameOk(name) && p <= |line| && line[p..] == Spaces(gap) + name
    ensures Named(line, p, st) == Add(st, name)
  {
    hide SkipWhite;
    GapThere(line, p, gap, name);
    assert SkipWhite(line, p) == p + gap;
  }

  lemma GapThere(line: string, p: nat, gap: nat, name: string)
    requires name != "" && p <= |line| && line[p..] == Spaces(gap) + name
    ensures p + gap < |line| && line[p + gap] == name[0] && line[p + gap..] == name
    ensures forall k | p <= k < p + gap :: line[k] == ' '
  {
    forall k | p <= k < p + gap
      ensures line[k] == ' '
    {
      assert line[k] == line[p..][k - p] == Spaces(gap)[k - p];
    }
    assert line[p + gap] == line[p..][gap] == name[0];
    assert line[p + gap..] == line[p..][gap..] == (Spaces(gap) + name)[gap..];
  }

  /** The item can stand after the state: it is in a section and entry of its own. */
  predicate Follows(st: State, i: Item) {
    match i
    case Generic(_) => true
    case Row(r, _) =>
      r.cat.Some? &&
      match r.cat.value
      case Unknown => false
      case Vendor => true
      case Class => true
      case Device => st.cat in [Some(Vendor), Some(Device), Some(Subsystem)] && st.id1 == r.id1
      case Subsystem => st.cat in [Some(Device), Some(Subsystem)] && st.id1 == r.id1 && st.id2 == r.id2
      case GenSubsystem => st.cat == Some(GenSubsystem) && st.id1 == r.id1
      case Subclass => st.cat in [Some(Class), Some(Subclass), Some(ProgIf)] && st.id1 == r.id1
      case ProgIf => st.cat in [Some(Subclass), Some(ProgIf)] && st.id1 == r.id1 && st.id2 == r.id2
  }

  /** The state after an item. */
  function After(st: State, i: Item): State {
    match i
    case Row(r, _) => r
    case Generic(vendor) => st.(cat := Some(GenSubsystem), id1 := vendor)
  }

  /** What parsing the line of an item has to give. */
  function Meaning(st: State, i: Item, known: map<Key, Stored>): Outcome {
    match i
    case Row(r, name) => Add(r, name)
    case Generic(vendor) => if KnownVendor(vendor, known) then Skip(After(st, i)) else Stop(NO_VENDOR)
  }

  /** Some tabs, digits, and the rest: how most lines begin. */
  lemma Indented(line: string, tabs: nat, v: nat, digits: nat, rest: string)
    requires line == seq(tabs, _ => '\t') + HexText(v, digits) + rest && digits > 0 && v < Pow16(digits)
    ensures |line| == tabs + digits + |rest| && line[tabs + digits..] == rest
    ensures HexAt(line, tabs, digits) == v && At(line, tabs + digits) == At(rest, 0)
    ensures !Ignored(line) && SkipTabs(line, 0) == tabs
    ensures line[tabs] !in [NUL, '\t', ' ', '#', 'C', 'S'] && !('A' <= line[tabs] <= 'Z')
  {
    hide HexAt, HexText;
    HexClean(v, digits);
    var text := HexText(v, digits);
    assert text[0] in text && line[tabs] == text[0];
    assert line[tabs..tabs + digits] == text;
    HexBack(line, tabs, v, digits);
    assert forall k | 0 <= k < tabs :: line[k] == '\t';
    assert SkipWhite(line, 0) == tabs;
  }

  /** A line as the file can hold it. */
  predicate Clean(line: string) {
    NUL !in line && '\n' !in line && '\r' !in line
  }

  /** Printed lines are clean and end in no blank. */
  lemma LineClean(i: Item, gap: nat)
    requires ItemOk(i) && gap >= 1
    ensures Clean(Line(i, gap)) && Trimmed(Line(i, gap)) == Line(i, gap)
  {
    if i.Generic? {
      HexClean(i.vendor, 4);
      var t := HexText(i.vendor, 4);
      assert t[3] in t;
    } else {
      HeadClean(i.st);
      var line := Line(i, gap);
      assert line[|line| - 1] == i.name[|i.name| - 1];
    }
  }

  lemma HeadClean(st: State)
    requires ItemOk(Row(st, "x"))
    ensures Clean(Head(st))
  {
    match st.cat.value {
      case Vendor => HexClean(st.id1, 4);
      case Device => HexClean(st.id2, 4);
      case GenSubsystem => HexClean(st.id2, 4);
      case Subsystem => HexClean(st.id3, 4); HexClean(st.id4, 4);
      case Class => HexClean(st.id1, 2);
      case Subclass => HexClean(st.id2, 2);
      case ProgIf => HexClean(st.id3, 2);
    }
  }

  lemma Sixteens()
    ensures Pow16(2) == 0x100 && Pow16(4) == 0x1_0000
  {
    assert Pow16(3) == 16 * Pow16(2);
  }

  /** The tail of a line is found behind its first blank. */
  lemma TailBack(line: string, p: nat, gap: nat, name: string, st: State)
    requires NameOk(name) && gap >= 1 && p < |line| && line[p..] == Spaces(gap) + name
    ensures Named(line, p + 1, st) == Add(st, name) && White(At(line, p))
  {
    assert line[p] == line[p..][0] && line[p + 1..] == line[p..][1..] == Spaces(gap - 1) + name;
    NameBack(line, p + 1, gap - 1, name, st);
  }

  lemma RowOk(r: State, name: string)
    requires ItemOk(Row(r, name))
    ensures NameOk(name)
  {
  }

  /** Vendor lines. */
  lemma NoTabs(digits: string, gap: string, name: string)
    ensures digits + gap + name == seq(0, _ => '\t') + digits + (gap + name)
  {
  }

  lemma VendorBack(st: State, r: State, name: string, gap: nat, known: map<Key, Stored>)
    requires gap >= 1 && ItemOk(Row(r, name)) && r.cat.value == Vendor && NUL !in Line(Row(r, name), gap)
    ensures ParseLine(st, Line(Row(r, name), gap), known) == Add(r, name)
  {
    hide HexText, HexAt, Named, Ignored, Spaces, SkipTabs, KnownVendor, ParseNested;
    var line, tail := Line(Row(r, name), gap), Spaces(gap) + name;
    Sixteens();
    NoTabs(HexText(r.id1, 4), Spaces(gap), name);
    hide Head;
    Indented(line, 0, r.id1, 4, tail);
    TailBack(line, 4, gap, name, r);
  }

  /** Lines of one identifier behind tabs. */
  lemma NestedBack(st: State, r: State, name: string, gap: nat, known: map<Key, Stored>, tabs: nat, v: nat, digits: nat)
    requires gap >= 1 && NameOk(name) && Follows(st, Row(r, name)) && v < Pow16(digits)
    requires match r.cat.value
             case Device => tabs == 1 && digits == 4 && v == r.id2 && r.id3 == r.id4 == 0
             case GenSubsystem => tabs == 1 && digits == 4 && v == r.id2 && r.id3 == r.id4 == 0
             case Subclass => tabs == 1 && digits == 2 && v == r.id2 && r.id3 == r.id4 == 0
             case ProgIf => tabs == 2 && digits == 2 && v == r.id3 && r.id4 == 0
             case _ => false
    requires NUL !in seq(tabs, _ => '\t') + HexText(v, digits) + (Spaces(gap) + name)
    ensures ParseLine(st, seq(tabs, _ => '\t') + HexText(v, digits) + (Spaces(gap) + name), known) == Add(r, name)
  {
    hide HexText, HexAt, Named, Ignored, SkipTabs, NameOk, ParseTop;
    var tail := Spaces(gap) + name;
    var line := seq(tabs, _ => '\t') + HexText(v, digits) + tail;
    Indented(line, tabs, v, digits, tail);
    TailBack(line, tabs + digits, gap, name, r);
  }

  /** Subsystem lines. */
  lemma SubsystemBack(st: State, r: State, name: string, gap: nat, known: map<Key, Stored>, line: string)
    requires gap >= 1 && NameOk(name) && Hex4(r.id3) && Hex4(r.id4) && Follows(st, Row(r, name)) && NUL !in line
    requires r.cat == Some(Subsystem)
    requires line == seq(2, _ => '\t') + HexText(r.id3, 4) + (" " + HexText(r.id4, 4) + (Spaces(gap) + name))
    ensures ParseLine(st, line, known) == Add(r, name)
  {
    hide HexText, HexAt, Named, Ignored, SkipTabs, NameOk, ParseTop, Pow16;
    Sixteens();
    var tail := Spaces(gap) + name;
    Indented(line, 2, r.id3, 4, " " + HexText(r.id4, 4) + tail);
    assert line[6..] == " " + HexText(r.id4, 4) + tail;
    assert line[7..11] == line[6..][1..5] == HexText(r.id4, 4) && line[11..] == line[6..][5..] == tail;
    HexBack(line, 7, r.id4, 4);
    TailBack(line, 11, gap, name, r);
  }

  /** Class lines. */
  lemma ClassBack(st: State, r: State, name: string, gap: nat, known: map<Key, Stored>)
    requires gap >= 1 && ItemOk(Row(r, name)) && NUL !in Line(Row(r, name), gap) && r.cat.value == Class
    ensures ParseLine(st, Line(Row(r, name), gap), known) == Add(r, name)
  {
    hide HexText, HexAt, Named, ParseNested, Spaces;
    var line := Line(Row(r, name), gap);
    Sixteens();
    ClassParts(HexText(r.id1, 2), Spaces(gap), name);
    HexBack(line, 2, r.id1, 2);
    TailBack(line, 4, gap, name, r);
    hide Head;
  }

  lemma ClassParts(digits: string, gap: string, name: string)
    requires |digits| == 2
    ensures var line := "C " + digits + gap + name;
            && |line| == 4 + |gap| + |name| && line[0] == 'C' && line[1] == ' ' && line[2..4] == digits
            && line[4..] == gap + name
  {
  }

  /** The heads of generic sections. */
  lemma GenericBack(st: State, vendor: int, known: map<Key, Stored>)
    requires Hex4(vendor) && NUL !in "S " + HexText(vendor, 4)
    ensures ParseLine(st, "S " + HexText(vendor, 4), known) == Meaning(st, Generic(vendor), known)
  {
    var line := "S " + HexText(vendor, 4);
    Sixteens();
    assert line[0] == 'S' && line[1] == ' ' && line[2..6] == HexText(vendor, 4);
    HexBack(line, 2, vendor, 4);
    hide HexText, HexAt, KnownVendor, ParseNested;
  }

  /** Each printed line is read back, in its place. */
  lemma LineBack(st: State, i: Item, gap: nat, known: map<Key, Stored>)
    requires gap >= 1 && ItemOk(i) && Follows(st, i) && NUL !in Line(i, gap)
    ensures ParseLine(st, Line(i, gap), known) == Meaning(st, i, known)
  {
    Sixteens();
    if i.Generic? {
      GenericBack(st, i.vendor, known);
    } else {
      RowBack(st, i.st, i.name, gap, known);
    }
  }

  lemma OneOrTwo()
    ensures seq(1, _ => '\t') == "\t" && seq(2, _ => '\t') == "\t\t"
  {
  }

  lemma LineIs(head: string, gap: string, name: string)
    ensures head + gap + name == head + (gap + name)
  {
  }

  lemma LineSplit(head: string, more: string, tail: string)
    ensures head + " " + more + tail == head + (" " + more + tail)
  {
  }

  lemma RowBack(st: State, r: State, name: string, gap: nat, known: map<Key, Stored>)
    requires gap >= 1 && ItemOk(Row(r, name)) && Follows(st, Row(r, name)) && NUL !in Line(Row(r, name), gap)
    ensures ParseLine(st, Line(Row(r, name), gap), known) == Add(r, name)
  {
    hide ParseLine, HexText, Spaces;
    Sixteens();
    RowOk(r, name);
    var line, tail := Line(Row(r, name), gap), Spaces(gap) + name;
    OneOrTwo();
    LineIs(Head(r), Spaces(gap), name);
    match r.cat.value {
      case Vendor => VendorBack(st, r, name, gap, known);
      case Device => NestedBack(st, r, name, gap, known, 1, r.id2, 4);
      case GenSubsystem => NestedBack(st, r, name, gap, known, 1, r.id2, 4);
      case Subsystem =>
        LineSplit("\t\t" + HexText(r.id3, 4), HexText(r.id4, 4), tail);
        SubsystemBack(st, r, name, gap, known, line);
      case Class => ClassBack(st, r, name, gap, known);
      case Subclass => NestedBack(st, r, name, gap, known, 1, r.id2, 2);
      case ProgIf => NestedBack(st, r, name, gap, known, 2, r.id3, 2);
    }
  }
}
