/** The chained hash table of lib/names-hash.c, as a finite map from identifiers to names. */
module IdHash {
  import opened Wrappers
  import opened IdAlloc

  datatype Category = Unknown | Vendor | Device | Subsystem | GenSubsystem | Class | Subclass | ProgIf

  /** In the order in which better sources win. */
  datatype Source = FromUnknown | FromCache | FromNet | FromHwdb | FromLocal

  type Id = x: int | 0 <= x < 0x1_0000

  /** Category and up to four identifiers, packed in pairs. */
  datatype Key = Key(cat: Category, id12: int, id34: int)

  datatype Entry = Entry(key: Key, src: Source, name: string)

  /** The bits of the lookup flags that the table looks at. */
  datatype Flags = Flags(skipLocal: bool, network: bool, cache: bool, noHwdb: bool)

  const NO_FLAGS := Flags(false, false, false, false)

  const HASH_SIZE := 4099
  const ENTRY_SIZE := 24

  function IdPair(x: Id, y: Id): (r: int)
    ensures 0 <= r < 0x1_0000_0000
  {
    x * 0x1_0000 + y
  }

  function MakeKey(cat: Category, id1: Id, id2: Id, id3: Id, id4: Id): (r: Key)
    ensures IsKey(r)
  {
    Key(cat, IdPair(id1, id2), IdPair(id3, id4))
  }

  predicate IsKey(k: Key) {
    0 <= k.id12 < 0x1_0000_0000 && 0 <= k.id34 < 0x1_0000_0000
  }

  /** Different identifiers have different keys. */
  lemma KeysDiffer(cat: Category, id1: Id, id2: Id, id3: Id, id4: Id, cat': Category, id1': Id, id2': Id, id3': Id,
                   id4': Id)
    requires MakeKey(cat, id1, id2, id3, id4) == MakeKey(cat', id1', id2', id3', id4')
    ensures cat == cat' && id1 == id1' && id2 == id2' && id3 == id3' && id4 == id4'
  {
  }

  function CategoryNumber(cat: Category): bv32 {
    match cat
    case Unknown => 0
    case Vendor => 1
    case Device => 2
    case Subsystem => 3
    case GenSubsystem => 4
    case Class => 5
    case Subclass => 6
    case ProgIf => 7
  }

  function Hash(k: Key): (r: nat)
    requires IsKey(k)
    ensures r < HASH_SIZE
  {
    ((k.id12 as bv32) ^ ((k.id34 as bv32) << 3) ^ (CategoryNumber(k.cat) << 5)) as int % HASH_SIZE
  }

  function Rank(s: Source): nat {
    match s
    case FromUnknown => 0
    case FromCache => 1
    case FromNet => 2
    case FromHwdb => 3
    case FromLocal => 4
  }

  /** May a lookup with these flags show an entry from this source? */
  predicate Visible(s: Source, f: Flags) {
    && !(s == FromLocal && f.skipLocal)
    && !(s == FromNet && !f.network)
    && !(s == FromCache && !f.cache)
    && !(s == FromHwdb && (f.skipLocal || f.noHwdb))
  }

  /** What is stored under a key. */
  datatype Stored = Stored(src: Source, name: string)

  class Table {
    /** The chains, newest entry first; null until the first insertion. */
    var chains: array?<seq<Entry>>
    const allocator: Allocator
    ghost var stored: map<Key, Stored>

    constructor ()
      ensures Valid() && stored == map[] && fresh(allocator)
    {
      allocator := new Allocator();
      chains, stored := null, map[];
    }

    ghost predicate Valid()
      reads this, allocator, chains
    {
      && allocator.Valid()
      && (chains == null ==> stored == map[])
      && (chains != null ==>
            && chains.Length == HASH_SIZE
            && (forall k | k in stored :: IsKey(k))
            && (forall h {:trigger ChainOk(chains[h], h, stored)} | 0 <= h < HASH_SIZE ::
                ChainOk(chains[h], h, stored)))
    }

    /** Position of the entry with key k in its chain, or the length of the chain. */
    method Find(h: nat, k: Key) returns (i: nat)
      requires Valid() && chains != null && IsKey(k) && h == Hash(k)
      ensures i <= |chains[h]| && (i < |chains[h]| <==> k in stored)
    {
      hide Hash;
      assert ChainOk(chains[h], h, stored);
      i := 0;
      while i < |chains[h]| && chains[h][i].key != k
        invariant 0 <= i <= |chains[h]| && forall j | 0 <= j < i :: chains[h][j].key != k
      {
        i := i + 1;
      }
    }

    /** Inserts an entry unless the key is there already, from whatever source; returns
        true when it was. */
    method Insert(k: Key, text: string, src: Source) returns (duplicate: bool)
      requires Valid() && IsKey(k)
      modifies this, allocator, chains
      ensures Valid() && duplicate == (k in old(stored))
      ensures stored == if duplicate then old(stored) else old(stored)[k := Stored(src, text)]
      ensures chains == old(chains) || fresh(chains)
    {
      hide Hash;
      var h := Hash(k);
      if chains != null {
        var i := Find(h, k);
        if i < |chains[h]| {
          return true;
        }
      } else {
        chains := new seq<Entry>[HASH_SIZE](_ => []);
        assert forall h | 0 <= h < HASH_SIZE :: ChainOk(chains[h], h, stored);
      }
      Prepend(h, Entry(k, src, text));
      return false;
    }

    /** A new entry goes in front of its chain. */
    method Prepend(h: nat, e: Entry)
      requires Valid() && chains != null && IsKey(e.key) && h == Hash(e.key) && e.key !in stored
      modifies this, allocator, chains
      ensures Valid() && chains == old(chains) && stored == old(stored)[e.key := Stored(e.src, e.name)]
    {
      hide Hash, ChainOk;
      var block := allocator.Alloc(ENTRY_SIZE + |e.name|);
      ghost var was := stored;
      forall g | 0 <= g < HASH_SIZE
        ensures ChainOk(if g == h then [e] + chains[h] else chains[g], g, was[e.key := Stored(e.src, e.name)])
      {
        assert ChainOk(chains[g], g, was);
        ChainGrows(chains[g], g, was, e.key, e);
      }
      chains[h] := [e] + chains[h];
      stored := stored[e.key := Stored(e.src, e.name)];
    }

    /** Finds the best visible entry. */
    method Lookup(f: Flags, k: Key) returns (name: Option<string>)
      requires Valid() && IsKey(k)
      ensures name == if k in stored && Visible(stored[k].src, f) then Some(stored[k].name) else None
    {
      hide Hash;
      if chains == null {
        return None;
      }
      var h := Hash(k);
      assert ChainOk(chains[h], h, stored);
      var best: Option<Entry> := None;
      var i := 0;
      while i < |chains[h]|
        invariant 0 <= i <= |chains[h]|
        invariant best.Some? ==> best.value.key == k && Visible(best.value.src, f) && best.value in chains[h]
        invariant best.None? ==> forall j | 0 <= j < i :: chains[h][j].key != k || !Visible(chains[h][j].src, f)
      {
        var n := chains[h][i];
        i := i + 1;
        if n.key != k {
          continue;
        }
        if n.src == FromLocal && f.skipLocal {
          continue;
        }
        if n.src == FromNet && !f.network {
          continue;
        }
        if n.src == FromCache && !f.cache {
          continue;
        }
        if n.src == FromHwdb && (f.skipLocal || f.noHwdb) {
          continue;
        }
        if best.None? || Rank(best.value.src) < Rank(n.src) {
          best := Some(n);
        }
      }
      return if best.Some? then Some(best.value.name) else None;
    }

    /** Forgets everything. */
    method Free()
      requires Valid()
      modifies this, allocator
      ensures Valid() && stored == map[] && chains == null
    {
      chains := null;
      stored := map[];
      allocator.Free();
    }
  }

  /** A chain holds what is stored under the keys with this hash value, each key once. */
  ghost predicate ChainOk(chain: seq<Entry>, h: nat, stored: map<Key, Stored>)
    requires forall k | k in stored :: IsKey(k)
  {
    && (forall e | e in chain ::
        IsKey(e.key) && Hash(e.key) == h && e.key in stored && stored[e.key] == Stored(e.src, e.name))
    && (forall k | k in stored && Hash(k) == h :: Entry(k, stored[k].src, stored[k].name) in chain)
    && (forall i, j | 0 <= i < j < |chain| :: chain[i].key != chain[j].key)
  }

  lemma ChainGrows(chain: seq<Entry>, g: nat, stored: map<Key, Stored>, k: Key, e: Entry)
    requires (forall k | k in stored :: IsKey(k)) && IsKey(k) && e.key == k && k !in stored
    requires ChainOk(chain, g, stored)
    ensures var stored' := stored[k := Stored(e.src, e.name)];
            ChainOk(if g == Hash(k) then [e] + chain else chain, g, stored')
  {
    hide Hash;
    var stored' := stored[k := Stored(e.src, e.name)];
    var chain' := if g == Hash(k) then [e] + chain else chain;
    forall x | x in chain'
      ensures IsKey(x.key) && Hash(x.key) == g && x.key in stored' && stored'[x.key] == Stored(x.src, x.name)
    {
      assert x == e || x in chain;
    }
    forall x | x in stored' && Hash(x) == g
      ensures Entry(x, stored'[x].src, stored'[x].name) in chain'
    {
      if x == k {
        assert chain'[0] == e;
      } else {
        assert Entry(x, stored[x].src, stored[x].name) in chain;
      }
    }
    if g == Hash(k) {
      assert forall j | 0 < j < |chain'| :: chain'[j] == chain[j - 1] && chain[j - 1] in chain;
    }
  }
}
