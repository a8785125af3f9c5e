/** The capability lists of lib/caps.c: chains through configuration space, which may be
    cyclic or broken. */
module Capabilities {
  import opened Wrappers
  import opened PciConfig

  datatype CapType = Normal | Extended

  datatype Cap = Cap(addr: nat, id: nat, kind: CapType)

  const STATUS := 0x06
  const CAP_LIST := 0x10
  const CAPABILITY_LIST := 0x34
  const CAP_ID_EXP := 0x10
  const NO_CAP := 0xff
  const EXT_START := 0x100

  // ------------------------------------------------------------------------- chains

  /** A chain: where it starts, how it goes on, and what cannot be an entry. An address of
      zero ends it. */
  datatype Links = Links(start: nat, next: nat -> nat, bad: nat -> bool)

  /** What the chain comes to behind these entries. */
  function After(l: Links, s: seq<nat>): nat {
    if s == [] then l.start else l.next(s[|s| - 1])
  }

  /** The entries follow each other along the chain, each there only once. */
  ghost predicate Follows(l: Links, s: seq<nat>) {
    && (forall i | 0 <= i < |s| :: s[i] == After(l, s[..i]) && s[i] != 0 && !l.bad(s[i]))
    && (forall i, j | 0 <= i < j < |s| :: s[i] != s[j])
  }

  /** The entries of the chain: as many as there are before it ends, comes to something
      that is no entry, or returns to one. */
  ghost predicate IsChain(l: Links, s: seq<nat>) {
    Follows(l, s) && var w := After(l, s); w == 0 || l.bad(w) || w in s
  }

  /** There is only one such list. */
  lemma ChainUnique(l: Links, s: seq<nat>, t: seq<nat>)
    requires IsChain(l, s) && IsChain(l, t)
    ensures s == t
  {
    SamePrefix(l, s, t, if |s| <= |t| then |s| else |t|);
    if |s| <= |t| {
      NotBeyond(l, s, t);
    } else {
      NotBeyond(l, t, s);
    }
  }

  lemma {:induction false} SamePrefix(l: Links, s: seq<nat>, t: seq<nat>, n: nat)
    requires Follows(l, s) && Follows(l, t) && n <= |s| && n <= |t|
    ensures s[..n] == t[..n]
    decreases n
  {
    hide After;
    if n > 0 {
      SamePrefix(l, s, t, n - 1);
      assert s[n - 1] == After(l, s[..n - 1]) && t[n - 1] == After(l, t[..n - 1]);
      assert s[..n] == s[..n - 1] + [s[n - 1]] && t[..n] == t[..n - 1] + [t[n - 1]];
    }
  }

  /** Entries end where the chain ends. */
  lemma NotBeyond(l: Links, s: seq<nat>, t: seq<nat>)
    requires IsChain(l, s) && Follows(l, t) && |s| <= |t| && s == t[..|s|]
    ensures s == t
  {
    assert forall i | 0 <= i < |s| :: s[i] == t[i];
  }

  /** Distinct numbers from 1 to n are at most n. */
  lemma {:induction false} Pigeons(s: seq<nat>, n: nat)
    requires (forall i | 0 <= i < |s| :: 1 <= s[i] <= n) && forall i, j | 0 <= i < j < |s| :: s[i] != s[j]
    ensures |s| <= n
    decreases n
  {
    if s != [] {
      assert 1 <= s[0] <= n;
      if n in s {
        var k :| 0 <= k < |s| && s[k] == n;
        Pigeons(s[..k] + s[k + 1..], n - 1);
      } else {
        Pigeons(s, n - 1);
      }
    }
  }

  /** Distinct multiples of four below 4 * n + 4, other than zero, are at most n. */
  lemma Quads(s: seq<nat>, n: nat)
    requires forall i | 0 <= i < |s| :: 0 < s[i] < 4 * n + 4 && s[i] % 4 == 0
    requires forall i, j | 0 <= i < j < |s| :: s[i] != s[j]
    ensures |s| <= n
  {
    var q: seq<nat> := seq(|s|, i requires 0 <= i < |s| => s[i] / 4);
    forall i | 0 <= i < |s|
      ensures 1 <= q[i] <= n && s[i] == 4 * q[i]
    {
    }
    Pigeons(q, n);
  }

  // ------------------------------------------------------------- the two kinds of chain

  function Quad(x: nat): (r: nat)
    ensures r % 4 == 0 && r <= x < r + 4
  {
    x - x % 4
  }

  /** Traditional capabilities: identifier and pointer in two bytes. */
  function TradLinks(config: Config, s: Slot): Links {
    Links(Quad(config(s, CAPABILITY_LIST)), (w: nat) => Quad(config(s, w + 1)), (w: nat) => config(s, w) == NO_CAP)
  }

  function ExtNext(header: int): (r: nat)
    requires 0 <= header < 0x1_0000_0000
    ensures r % 4 == 0 && r < 0x1000
  {
    Quad(header / 0x10_0000)
  }

  predicate NoHeader(header: int) {
    header == 0 || header == NO_DEVICE
  }

  /** Extended capabilities: both in one long word, the pointer in its upper 12 bits. */
  function ExtLinks(config: Config, s: Slot): Links {
    Links(EXT_START, (w: nat) => ExtNext(Long(config, s, w)), (w: nat) => NoHeader(Long(config, s, w)))
  }

  predicate HasList(config: Config, s: Slot) {
    Word(config, s, STATUS) / CAP_LIST % 2 == 1
  }

  function TradCaps(config: Config, s: Slot, addrs: seq<nat>): seq<Cap> {
    seq(|addrs|, i requires 0 <= i < |addrs| => Cap(addrs[i], config(s, addrs[i]), Normal))
  }

  function ExtCaps(config: Config, s: Slot, addrs: seq<nat>): seq<Cap> {
    seq(|addrs|, i requires 0 <= i < |addrs| => Cap(addrs[i], Long(config, s, addrs[i]) % 0x1_0000, Extended))
  }

  /** The capabilities of this kind and identifier, in order. */
  function Matches(caps: seq<Cap>, id: nat, kind: CapType): seq<Cap> {
    if caps == [] then []
    else
      var last := caps[|caps| - 1];
      Matches(caps[..|caps| - 1], id, kind) + if last.kind == kind && last.id == id then [last] else []
  }

  class Device {
    const config: Config
    const slot: Slot
    /** The list, appended to at its end. */
    var caps: seq<Cap>

    constructor (config: Config, slot: Slot)
      ensures this.config == config && this.slot == slot && caps == []
    {
      this.config, this.slot, caps := config, slot, [];
    }

    method AddCap(addr: nat, id: nat, kind: CapType)
      modifies this
      ensures caps == old(caps) + [Cap(addr, id, kind)]
    {
      caps := caps + [Cap(addr, id, kind)];
    }

    /** Appends the entries of the chain, in order; the chain has at most 63. */
    method ScanTradCaps() returns (ghost addrs: seq<nat>)
      modifies this
      ensures caps == old(caps) + TradCaps(config, slot, addrs) && |addrs| <= 63
      ensures if HasList(config, slot) then IsChain(TradLinks(config, slot), addrs) else addrs == []
    {
      hide Follows, Quad, Word, After, TradLinks, HasList, IsChain;
      addrs := [];
      ghost var l := TradLinks(config, slot);
      ChainBegins(l);
      if !HasList(config, slot) {
        return;
      }
      var beenThere := new bool[256](_ => false);
      var where := Quad(config(slot, CAPABILITY_LIST));
      TradFacts(config, slot, where);
      while where != 0
        invariant where == After(l, addrs) && where < 256 && where % 4 == 0
        invariant Follows(l, addrs) && Within(addrs, 256)
        invariant forall w | 0 <= w < 256 :: beenThere[w] <==> w in addrs
        invariant caps == old(caps) + TradCaps(config, slot, addrs) && |addrs| <= 63
        decreases 64 - |addrs|
      {
        var id := config(slot, where);
        var next := Quad(config(slot, where + 1));
        TradFacts(config, slot, where);
        if beenThere[where] {
          break;
        }
        beenThere[where] := true;
        if id == NO_CAP {
          break;
        }
        AddCap(where, id, Normal);
        Extend(l, addrs, where, 63);
        assert TradCaps(config, slot, addrs + [where]) == TradCaps(config, slot, addrs) + [Cap(where, id, Normal)];
        addrs := addrs + [where];
        where := next;
      }
      ChainEnds(l, addrs);
    }

    /** Likewise for the extended ones, when there is a PCI Express capability; the chain
        has at most 1023. */
    method ScanExtCaps() returns (ghost addrs: seq<nat>)
      modifies this
      ensures caps == old(caps) + ExtCaps(config, slot, addrs) && |addrs| <= 1023
      ensures if Matches(old(caps), CAP_ID_EXP, Normal) != [] then IsChain(ExtLinks(config, slot), addrs)
              else addrs == []
    {
      hide Follows, Quad, Long, After, Matches, ExtNext;
      addrs := [];
      ghost var l := ExtLinks(config, slot);
      ChainBegins(l);
      var express, count := FindCapNr(CAP_ID_EXP, Normal, 0);
      if express.None? {
        return;
      }
      var beenThere := new bool[0x1000](_ => false);
      var where: nat := EXT_START;
      var first := true;
      while first || where != 0
        invariant where == After(l, addrs) && where < 0x1000 && where % 4 == 0 && (first ==> where != 0)
        invariant Follows(l, addrs) && Within(addrs, 0x1000)
        invariant forall w | 0 <= w < 0x1000 :: beenThere[w] <==> w in addrs
        invariant caps == old(caps) + ExtCaps(config, slot, addrs) && |addrs| <= 1023
        decreases 1024 - |addrs|
      {
        first := false;
        var header := Long(config, slot, where);
        if header == 0 || header == NO_DEVICE {
          break;
        }
        var id := header % 0x1_0000;
        if beenThere[where] {
          break;
        }
        beenThere[where] := true;
        AddCap(where, id, Extended);
        Extend(l, addrs, where, 1023);
        assert ExtCaps(config, slot, addrs + [where]) == ExtCaps(config, slot, addrs) + [Cap(where, id, Extended)];
        addrs := addrs + [where];
        where := ExtNext(header);
      }
    }

    /** The capability number `target` of its kind and identifier, and how many there are. */
    method FindCapNr(id: nat, kind: CapType, target: nat) returns (found: Option<Cap>, count: nat)
      ensures count == |Matches(caps, id, kind)|
      ensures found == if target < count then Some(Matches(caps, id, kind)[target]) else None
    {
      found, count := None, 0;
      var i := 0;
      while i < |caps|
        invariant 0 <= i <= |caps| && count == |Matches(caps[..i], id, kind)|
        invariant found == if target < count then Some(Matches(caps[..i], id, kind)[target]) else None
      {
        assert caps[..i + 1][..i] == caps[..i];
        if caps[i].kind == kind && caps[i].id == id {
          if target == count {
            found := Some(caps[i]);
          }
          count := count + 1;
        }
        i := i + 1;
      }
      assert caps[..i] == caps;
    }
  }

  /** The entries are multiples of four below the end of the space. */
  predicate Within(s: seq<nat>, end: nat) {
    forall i | 0 <= i < |s| :: s[i] < end && s[i] % 4 == 0
  }

  lemma TradFacts(config: Config, s: Slot, w: nat)
    ensures var l := TradLinks(config, s);
            && l.start == Quad(config(s, CAPABILITY_LIST)) && l.next(w) == Quad(config(s, w + 1))
            && (l.bad(w) <==> config(s, w) == NO_CAP)
  {
  }

  lemma ChainEnds(l: Links, s: seq<nat>)
    requires Follows(l, s) && var w := After(l, s); w == 0 || l.bad(w) || w in s
    ensures IsChain(l, s)
  {
  }

  /** No entry yet. */
  lemma ChainBegins(l: Links)
    ensures Follows(l, []) && After(l, []) == l.start
  {
  }

  /** A new entry extends the list. */
  lemma Extend(l: Links, s: seq<nat>, w: nat, n: nat)
    requires Follows(l, s) && w == After(l, s) && w != 0 && !l.bad(w) && w !in s
    requires Within(s, 4 * n + 4) && w < 4 * n + 4 && w % 4 == 0
    ensures Follows(l, s + [w]) && After(l, s + [w]) == l.next(w) && Within(s + [w], 4 * n + 4) && |s| + 1 <= n
  {
    var t := s + [w];
    forall i | 0 <= i < |t|
      ensures t[i] == After(l, t[..i]) && t[i] != 0 && !l.bad(t[i])
    {
      assert t[..i] == s[..i];
      if i < |s| {
        assert t[i] == s[i];
      } else {
        assert s[..i] == s;
      }
    }
    Quads(t, n);
  }

  /** Every match is in the list, and has the kind and identifier asked for; nothing else
      is a match. */
  lemma {:induction false} MatchesExact(caps: seq<Cap>, id: nat, kind: CapType, c: Cap)
    ensures c in Matches(caps, id, kind) <==> c in caps && c.kind == kind && c.id == id
    decreases |caps|
  {
    if caps != [] {
      MatchesExact(caps[..|caps| - 1], id, kind, c);
      assert caps == caps[..|caps| - 1] + [caps[|caps| - 1]];
    }
  }
}
