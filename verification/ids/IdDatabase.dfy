/** What a database of identifiers says, told from its sections, and what can be looked up after
    it is loaded. */
module IdDatabase {
  import opened Wrappers
  import opened IdHash
  import opened IdList
  import opened IdPrint
  import opened IdInverse

  /** An entry: its category and its identifiers from the outermost section on, and its name. */
  datatype Fact = Fact(cat: Category, id1: int, id2: int, id3: int, id4: int, name: string)

  predicate LeafSays(cat: Category, id1: int, id2: int, l: Leaf, f: Fact) {
    f == Fact(cat, id1, id2, l.id1, if cat == Subsystem then l.id2 else 0, l.name)
  }

  /** A device with its subsystems, or a subclass with its programming interfaces. */
  predicate InnerSays(cat: Category, leaf: Category, id1: int, d: Inner, f: Fact) {
    f == Fact(cat, id1, d.id, 0, 0, d.name) || exists l | l in d.leaves :: LeafSays(leaf, id1, d.id, l, f)
  }

  predicate SectionSays(s: Section, f: Fact) {
    match s
    case VendorSection(id, name, devices) =>
      f == Fact(Vendor, id, 0, 0, 0, name) || exists d | d in devices :: InnerSays(Device, Subsystem, id, d, f)
    case ClassSection(id, name, subclasses) =>
      f == Fact(Class, id, 0, 0, 0, name) || exists d | d in subclasses :: InnerSays(Subclass, ProgIf, id, d, f)
    case GenericSection(vendor, subsystems) =>
      exists l | l in subsystems :: f == Fact(GenSubsystem, vendor, l.id1, 0, 0, l.name)
  }

  predicate Says(db: seq<Section>, f: Fact) {
    exists s | s in db :: SectionSays(s, f)
  }

  function RowOf(f: Fact): Item {
    Row(State(Some(f.cat), f.id1, f.id2, f.id3, f.id4), f.name)
  }

  lemma {:induction false} LeafRows(cat: Category, id1: int, id2: int, leaves: seq<Leaf>, f: Fact)
    ensures RowOf(f) in LeafItems(cat, id1, id2, leaves) <==> exists l | l in leaves :: LeafSays(cat, id1, id2, l, f)
    decreases |leaves|
  {
    if leaves != [] {
      LeafRows(cat, id1, id2, leaves[1..], f);
      LeafFirst(cat, id1, id2, leaves, f);
      hide LeafItems, LeafSays;
      if l :| l in leaves && LeafSays(cat, id1, id2, l, f) {
        assert l == leaves[0] || l in leaves[1..];
      }
    }
  }

  lemma LeafFirst(cat: Category, id1: int, id2: int, leaves: seq<Leaf>, f: Fact)
    requires leaves != []
    ensures RowOf(f) in LeafItems(cat, id1, id2, leaves)
            <==> LeafSays(cat, id1, id2, leaves[0], f) || RowOf(f) in LeafItems(cat, id1, id2, leaves[1..])
  {
  }

  lemma {:induction false} InnerRows(cat: Category, leaf: Category, id1: int, inner: seq<Inner>, f: Fact)
    ensures RowOf(f) in InnerItems(cat, leaf, id1, inner) <==> exists d | d in inner :: InnerSays(cat, leaf, id1, d, f)
    decreases |inner|
  {
    if inner != [] {
      InnerRows(cat, leaf, id1, inner[1..], f);
      InnerFirst(cat, leaf, id1, inner, f);
      hide InnerItems, InnerSays;
      if d :| d in inner && InnerSays(cat, leaf, id1, d, f) {
        assert d == inner[0] || d in inner[1..];
      }
    }
  }

  lemma InnerFirst(cat: Category, leaf: Category, id1: int, inner: seq<Inner>, f: Fact)
    requires inner != []
    ensures RowOf(f) in InnerItems(cat, leaf, id1, inner)
            <==> InnerSays(cat, leaf, id1, inner[0], f) || RowOf(f) in InnerItems(cat, leaf, id1, inner[1..])
  {
    hide LeafItems, LeafSays;
    LeafRows(leaf, id1, inner[0].id, inner[0].leaves, f);
  }

  lemma {:induction false} GenericRows(vendor: int, subsystems: seq<Leaf>, f: Fact)
    ensures RowOf(f) in GenericItems(vendor, subsystems)
            <==> exists l | l in subsystems :: f == Fact(GenSubsystem, vendor, l.id1, 0, 0, l.name)
    decreases |subsystems|
  {
    if subsystems != [] {
      GenericRows(vendor, subsystems[1..], f);
      assert forall l :: l in subsystems <==> l == subsystems[0] || l in subsystems[1..];
    }
  }

  lemma SectionRows(s: Section, f: Fact)
    ensures RowOf(f) in SectionItems(s) <==> SectionSays(s, f)
  {
    hide InnerItems, GenericItems, InnerSays;
    match s
    case VendorSection(id, _, devices) => InnerRows(Device, Subsystem, id, devices, f);
    case ClassSection(id, _, subclasses) => InnerRows(Subclass, ProgIf, id, subclasses, f);
    case GenericSection(vendor, subsystems) => GenericRows(vendor, subsystems, f);
  }

  /** The lines of the database are those of what it says. */
  lemma {:induction false} RowsSay(db: seq<Section>, f: Fact)
    ensures RowOf(f) in Items(db) <==> Says(db, f)
    decreases |db|
  {
    hide SectionItems, SectionSays;
    if db != [] {
      SectionRows(db[0], f);
      RowsSay(db[1..], f);
      assert forall s :: s in db <==> s == db[0] || s in db[1..];
    }
  }

  /** The names of a consistent database are exactly those that it says, under their category
      and identifiers. */
  lemma NamesSay(db: seq<Section>, cat: Category, id1: Id, id2: Id, id3: Id, id4: Id, name: string)
    requires ItemsOk(Items(db)) && Consistent(Items(db))
    ensures var k := MakeKey(cat, id1, id2, id3, id4);
            Says(db, Fact(cat, id1, id2, id3, id4, name))
            <==> k in NamesOf(Items(db)) && NamesOf(Items(db))[k] == Stored(FromLocal, name)
  {
    hide Items, Says, NamesOf, Consistent, MakeKey;
    var items, f, k := Items(db), Fact(cat, id1, id2, id3, id4, name), MakeKey(cat, id1, id2, id3, id4);
    RowsSay(db, f);
    NamesExact(items);
    if RowOf(f) in items {
      var i :| 0 <= i < |items| && items[i] == RowOf(f);
      RowKey(f);
    }
    if k in NamesOf(items) && NamesOf(items)[k] == Stored(FromLocal, name) {
      var i :| 0 <= i < |items| && items[i].Row? && ItemKey(items[i]) == k;
      KeyRow(items[i], cat, id1, id2, id3, id4);
    }
  }

  lemma RowKey(f: Fact)
    requires ItemOk(RowOf(f))
    ensures 0 <= f.id1 < 0x1_0000 && 0 <= f.id2 < 0x1_0000 && 0 <= f.id3 < 0x1_0000 && 0 <= f.id4 < 0x1_0000
    ensures ItemKey(RowOf(f)) == MakeKey(f.cat, f.id1, f.id2, f.id3, f.id4)
  {
  }

  lemma KeyRow(i: Item, cat: Category, id1: Id, id2: Id, id3: Id, id4: Id)
    requires ItemOk(i) && i.Row? && ItemKey(i) == MakeKey(cat, id1, id2, id3, id4)
    ensures i == RowOf(Fact(cat, id1, id2, id3, id4, i.name))
  {
    var st := i.st;
    KeysDiffer(st.cat.value, st.id1, st.id2, st.id3, st.id4, cat, id1, id2, id3, id4);
  }

  /** The sources that a lookup with these flags may show. */
  function Shown(f: Flags): set<Source> {
    {FromUnknown}
    + (if f.skipLocal then {} else {FromLocal})
    + (if f.skipLocal || f.noHwdb then {} else {FromHwdb})
    + (if f.network then {FromNet} else {})
    + (if f.cache then {FromCache} else {})
  }

  lemma ShownVisible(s: Source, f: Flags)
    ensures Visible(s, f) <==> s in Shown(f)
  {
  }

  /** Loads a list that holds the lines of a consistent database, and looks an entry up: the name
      that the database says, unless local entries are to be skipped, and nothing else. */
  method LoadAndLookup(t: Table, db: seq<Section>, lines: seq<string>, eols: seq<string>, gaps: seq<nat>,
                       f: Flags, cat: Category, id1: Id, id2: Id, id3: Id, id4: Id)
    returns (err: Option<string>, name: Option<string>)
    requires t.Valid() && ItemsOk(Items(db)) && GapsOk(Items(db), gaps)
    requires AllClean(lines) && Ended(lines, eols) && Significant(lines) == LinesOf(Items(db), gaps)
    modifies t, t.allocator, t.chains
    ensures err.None? <==> Consistent(Items(db))
    ensures err.None? ==> forall x ::
              name == Some(x) <==> Says(db, Fact(cat, id1, id2, id3, id4, x)) && FromLocal in Shown(f)
  {
    hide Items, ItemsOk, Consistent, Joined, ParseText, NamesOf, Says, Significant, LinesOf, AllClean, MakeKey;
    ListInverse(db, lines, eols, gaps);
    err := LoadNameList(t, Joined(lines, eols));
    if err.Some? {
      return err, None;
    }
    var k := MakeKey(cat, id1, id2, id3, id4);
    name := t.Lookup(f, k);
    ShownVisible(FromLocal, f);
    AllLocal(db);
    forall x
      ensures name == Some(x) <==> Says(db, Fact(cat, id1, id2, id3, id4, x)) && FromLocal in Shown(f)
    {
      NamesSay(db, cat, id1, id2, id3, id4, x);
    }
  }

  /** The list gives local entries only. */
  lemma AllLocal(db: seq<Section>)
    requires ItemsOk(Items(db)) && Consistent(Items(db))
    ensures forall k | k in NamesOf(Items(db)) :: NamesOf(Items(db))[k].src == FromLocal
  {
    hide Items, NamesOf, Consistent;
    NamesExact(Items(db));
  }

  /** An entry from any source is found exactly when the flags show its source. */
  method InsertAndLookup(t: Table, k: Key, text: string, src: Source, f: Flags) returns (name: Option<string>)
    requires t.Valid() && IsKey(k) && k !in t.stored
    modifies t, t.allocator, t.chains
    ensures name == if src in Shown(f) then Some(text) else None
  {
    var duplicate := t.Insert(k, text, src);
    name := t.Lookup(f, k);
    ShownVisible(src, f);
  }
}
