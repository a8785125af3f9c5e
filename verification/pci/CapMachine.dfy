/** Capability lists as a device lays them out, and what the two scans find. */
module CapMachine {
  import opened ByteSeq
  import opened PciConfig
  import opened Capabilities

  /** An entry of the traditional list: two bytes, the second with the address of the next entry
      and two low bits that do not count. */
  datatype Plain = Plain(addr: nat, id: nat, low: nat)

  /** An entry of the extended list: a long word with identifier, version and next address. */
  datatype Wide = Wide(addr: nat, id: nat, version: nat, low: nat)

  predicate PlainOk(list: seq<Plain>) {
    && (forall i | 0 <= i < |list| ::
          var e := list[i]; 0 < e.addr < 256 && e.addr % 4 == 0 && e.id < 255 && e.low < 4)
    && forall i, j | 0 <= i < j < |list| :: list[i].addr != list[j].addr
  }

  function PlainNext(list: seq<Plain>, i: nat): nat {
    if i < |list| then list[i].addr else 0
  }

  /** Bit 4 of the status, the address of the first entry at 52, and the entries. */
  ghost predicate ShowsPlain(config: Config, s: Slot, list: seq<Plain>, low: nat) {
    && config(s, 6) / 16 % 2 == 1 && low < 4 && config(s, 52) == PlainNext(list, 0) + low
    && forall i: nat {:trigger PlainAt(config, s, list, i)} | i < |list| :: PlainAt(config, s, list, i)
  }

  ghost predicate PlainAt(config: Config, s: Slot, list: seq<Plain>, i: nat)
    requires i < |list|
  {
    config(s, list[i].addr) == list[i].id && config(s, list[i].addr + 1) == PlainNext(list, i + 1) + list[i].low
  }

  function WideNext(list: seq<Wide>, i: nat): nat {
    if i < |list| then list[i].addr else 0
  }

  /** Identifier in 16 bits, version in 4, next address in 12. */
  function Header(e: Wide, next: nat): nat {
    e.id + 65536 * e.version + 1048576 * (next + e.low)
  }

  /** The first entry stands at 256, and no header is all zeros or all ones. */
  predicate WideOk(list: seq<Wide>) {
    && (list != [] ==> list[0].addr == 256)
    && (forall i | 0 <= i < |list| ::
          var e := list[i];
          0 < e.addr < 4096 && e.addr % 4 == 0 && e.id < 65536 && e.version < 16 && e.low < 4)
    && (forall i: nat {:trigger HeaderOk(list, i)} | i < |list| :: HeaderOk(list, i))
    && forall i, j | 0 <= i < j < |list| :: list[i].addr != list[j].addr
  }

  predicate HeaderOk(list: seq<Wide>, i: nat)
    requires i < |list|
  {
    Header(list[i], WideNext(list, i + 1)) != 0 && Header(list[i], WideNext(list, i + 1)) != 0xffffffff
  }

  /** A little-endian long word. */
  ghost predicate LongAt(config: Config, s: Slot, pos: nat, x: nat) {
    config(s, pos) + 256 * config(s, pos + 1) + 65536 * config(s, pos + 2) + 16777216 * config(s, pos + 3) == x
  }

  ghost predicate ShowsWide(config: Config, s: Slot, list: seq<Wide>) {
    && (list == [] ==> LongAt(config, s, 256, 0) || LongAt(config, s, 256, 0xffffffff))
    && forall i: nat {:trigger WideAt(config, s, list, i)} | i < |list| :: WideAt(config, s, list, i)
  }

  ghost predicate WideAt(config: Config, s: Slot, list: seq<Wide>, i: nat)
    requires i < |list|
  {
    LongAt(config, s, list[i].addr, Header(list[i], WideNext(list, i + 1)))
  }

  function PlainCaps(list: seq<Plain>): (r: seq<Cap>)
    ensures |r| == |list|
  {
    seq(|list|, i requires 0 <= i < |list| => Cap(list[i].addr, list[i].id, Normal))
  }

  function WideCaps(list: seq<Wide>): (r: seq<Cap>)
    ensures |r| == |list|
  {
    seq(|list|, i requires 0 <= i < |list| => Cap(list[i].addr, list[i].id, Extended))
  }

  function PlainAddrs(list: seq<Plain>): seq<nat> {
    seq(|list|, i requires 0 <= i < |list| => list[i].addr)
  }

  function WideAddrs(list: seq<Wide>): seq<nat> {
    seq(|list|, i requires 0 <= i < |list| => list[i].addr)
  }

  // ------------------------------------------------------------------ traditional lists

  lemma QuadLow(next: nat, low: nat)
    requires next % 4 == 0 && low < 4
    ensures Quad(next + low) == next
  {
  }

  lemma PlainFirst(config: Config, s: Slot, list: seq<Plain>, low: nat)
    requires PlainOk(list) && ShowsPlain(config, s, list, low)
    ensures After(TradLinks(config, s), []) == PlainNext(list, 0)
  {
    hide TradLinks, Quad;
    QuadLow(PlainNext(list, 0), low);
    TradFacts(config, s, 0);
  }

  lemma PlainLater(config: Config, s: Slot, list: seq<Plain>, low: nat, i: nat)
    requires PlainOk(list) && ShowsPlain(config, s, list, low) && i < |list|
    ensures TradLinks(config, s).next(list[i].addr) == PlainNext(list, i + 1)
    ensures !TradLinks(config, s).bad(list[i].addr)
  {
    assert PlainAt(config, s, list, i);
    QuadLow(PlainNext(list, i + 1), list[i].low);
    TradFacts(config, s, list[i].addr);
    hide TradLinks, Quad, ShowsPlain;
  }

  lemma PlainStep(config: Config, s: Slot, list: seq<Plain>, low: nat, i: nat)
    requires PlainOk(list) && ShowsPlain(config, s, list, low) && i <= |list|
    ensures After(TradLinks(config, s), PlainAddrs(list)[..i]) == PlainNext(list, i)
    ensures i < |list| ==> !TradLinks(config, s).bad(list[i].addr)
  {
    hide TradLinks, Quad, PlainOk, ShowsPlain, PlainNext;
    if i == 0 {
      assert PlainAddrs(list)[..0] == [];
      PlainFirst(config, s, list, low);
    } else {
      var addrs := PlainAddrs(list)[..i];
      assert addrs[i - 1] == list[i - 1].addr;
      PlainLater(config, s, list, low, i - 1);
    }
    if i < |list| {
      PlainLater(config, s, list, low, i);
    }
  }

  lemma PlainChain(config: Config, s: Slot, list: seq<Plain>, low: nat)
    requires PlainOk(list) && ShowsPlain(config, s, list, low)
    ensures IsChain(TradLinks(config, s), PlainAddrs(list)) && TradCaps(config, s, PlainAddrs(list)) == PlainCaps(list)
  {
    hide TradLinks, After, ShowsPlain;
    var addrs := PlainAddrs(list);
    forall i | 0 <= i < |addrs|
      ensures addrs[i] == After(TradLinks(config, s), addrs[..i]) && !TradLinks(config, s).bad(addrs[i])
    {
      PlainStep(config, s, list, low, i);
    }
    PlainStep(config, s, list, low, |list|);
    assert addrs[..|list|] == addrs;
    PlainIds(config, s, list, low);
  }

  lemma PlainIds(config: Config, s: Slot, list: seq<Plain>, low: nat)
    requires PlainOk(list) && ShowsPlain(config, s, list, low)
    ensures TradCaps(config, s, PlainAddrs(list)) == PlainCaps(list)
  {
    forall i | 0 <= i < |list|
      ensures config(s, list[i].addr) == list[i].id
    {
      assert PlainAt(config, s, list, i);
    }
  }

  lemma PlainHasList(config: Config, s: Slot, list: seq<Plain>, low: nat)
    requires ShowsPlain(config, s, list, low)
    ensures HasList(config, s)
  {
    var a, b := config(s, 6) as int, config(s, 7) as int;
    assert Word(config, s, 6) == a + 256 * b;
    Bit4(a, b);
  }

  lemma Bit4(a: int, b: int)
    requires 0 <= a < 256 && 0 <= b && a / 16 % 2 == 1
    ensures (a + 256 * b) / 16 % 2 == 1
  {
    assert (a + 256 * b) / 16 == a / 16 + 16 * b;
    assert a / 16 + 16 * b == 2 * (a / 16 / 2 + 8 * b) + 1;
  }

  // --------------------------------------------------------------------- extended lists

  lemma HeaderParts(e: Wide, next: nat)
    requires e.id < 65536 && e.version < 16 && e.low < 4 && next % 4 == 0 && next + e.low < 4096
    ensures Header(e, next) < 0x1_0000_0000
    ensures Header(e, next) % 65536 == e.id && ExtNext(Header(e, next)) == next
  {
    var h := Header(e, next);
    assert h == e.id + 65536 * (e.version + 16 * (next + e.low));
    assert h / 0x10_0000 == next + e.low by {
      assert h == 0x10_0000 * (next + e.low) + (e.id + 65536 * e.version);
    }
    QuadLow(next, e.low);
  }

  lemma LongIs(config: Config, s: Slot, pos: nat, x: nat)
    requires LongAt(config, s, pos, x)
    ensures Long(config, s, pos) == x
  {
  }

  lemma WideHeader(config: Config, s: Slot, list: seq<Wide>, i: nat)
    requires WideOk(list) && ShowsWide(config, s, list) && i < |list|
    ensures ExtNext(Long(config, s, list[i].addr)) == WideNext(list, i + 1)
    ensures Long(config, s, list[i].addr) % 0x1_0000 == list[i].id && !NoHeader(Long(config, s, list[i].addr))
  {
    hide LongAt;
    var e, next := list[i], WideNext(list, i + 1);
    WideFacts(list, i);
    assert WideAt(config, s, list, i);
    hide WideOk, ShowsWide, Header, Long, ExtNext;
    HeaderParts(e, next);
    LongIs(config, s, e.addr, Header(e, next));
  }

  lemma WideFacts(list: seq<Wide>, i: nat)
    requires WideOk(list) && i < |list|
    ensures var e, next := list[i], WideNext(list, i + 1);
            && e.id < 65536 && e.version < 16 && e.low < 4 && next % 4 == 0 && next + e.low < 4096
            && Header(e, next) != 0 && Header(e, next) != 0xffffffff
  {
    hide Header;
    assert HeaderOk(list, i);
    BelowEnd(WideNext(list, i + 1), list[i].low);
  }

  lemma BelowEnd(next: nat, low: nat)
    requires next % 4 == 0 && next < 4096 && low < 4
    ensures next + low < 4096
  {
    var q := next / 4;
    assert next == 4 * q;
  }

  lemma WideStep(config: Config, s: Slot, list: seq<Wide>, i: nat)
    requires WideOk(list) && ShowsWide(config, s, list) && i <= |list|
    ensures var w := After(ExtLinks(config, s), WideAddrs(list)[..i]);
            if i < |list| then w == list[i].addr && !ExtLinks(config, s).bad(w)
            else w == 0 || ExtLinks(config, s).bad(w)
  {
    hide Header, Long, ExtNext, NoHeader, LongAt;
    if i < |list| {
      WideHeader(config, s, list, i);
    }
    if i > 0 {
      WideHeader(config, s, list, i - 1);
      assert WideAddrs(list)[..i][i - 1] == list[i - 1].addr;
    } else if list == [] {
      NoWide(config, s);
    }
  }

  lemma NoWide(config: Config, s: Slot)
    requires LongAt(config, s, 256, 0) || LongAt(config, s, 256, 0xffffffff)
    ensures NoHeader(Long(config, s, EXT_START))
  {
  }

  lemma WideChain(config: Config, s: Slot, list: seq<Wide>)
    requires WideOk(list) && ShowsWide(config, s, list)
    ensures IsChain(ExtLinks(config, s), WideAddrs(list)) && ExtCaps(config, s, WideAddrs(list)) == WideCaps(list)
  {
    hide ExtLinks, After, ShowsWide, Long, Header;
    var addrs := WideAddrs(list);
    forall i | 0 <= i < |addrs|
      ensures addrs[i] == After(ExtLinks(config, s), addrs[..i]) && !ExtLinks(config, s).bad(addrs[i])
      ensures Long(config, s, addrs[i]) % 0x1_0000 == list[i].id
    {
      WideStep(config, s, list, i);
      WideHeader(config, s, list, i);
    }
    WideStep(config, s, list, |list|);
    assert addrs[..|list|] == addrs;
    assert ExtCaps(config, s, addrs) == WideCaps(list);
  }

  // --------------------------------------------------------------------------- both scans

  lemma {:induction false} ExpressFound(list: seq<Plain>)
    ensures Matches(PlainCaps(list), CAP_ID_EXP, Normal) != [] <==> exists i :: 0 <= i < |list| && list[i].id == 16
    decreases |list|
  {
    if list != [] {
      var init := list[..|list| - 1];
      ExpressFound(init);
      assert PlainCaps(list)[..|list| - 1] == PlainCaps(init);
      if i :| 0 <= i < |list| && list[i].id == 16 {
        assert i < |init| ==> init[i].id == 16;
      }
      if i :| 0 <= i < |init| && init[i].id == 16 {
        assert list[i].id == 16;
      }
    }
  }

  /** The capabilities found are exactly those laid out, in order: the traditional ones, and when
      there is PCI Express among them, with identifier 16, the extended ones. */
  method ScanLists(d: Device, plain: seq<Plain>, low: nat, wide: seq<Wide>)
    requires d.caps == [] && PlainOk(plain) && WideOk(wide)
    requires ShowsPlain(d.config, d.slot, plain, low) && ShowsWide(d.config, d.slot, wide)
    modifies d
    ensures d.caps == PlainCaps(plain)
                      + if exists i :: 0 <= i < |plain| && plain[i].id == 16 then WideCaps(wide) else []
  {
    hide IsChain, TradLinks, ExtLinks, ShowsPlain, ShowsWide, HasList, Matches, TradCaps, ExtCaps;
    PlainHasList(d.config, d.slot, plain, low);
    PlainChain(d.config, d.slot, plain, low);
    WideChain(d.config, d.slot, wide);
    ExpressFound(plain);
    ghost var addrs := d.ScanTradCaps();
    ChainUnique(TradLinks(d.config, d.slot), addrs, PlainAddrs(plain));
    assert d.caps == [] + PlainCaps(plain) == PlainCaps(plain);
    addrs := d.ScanExtCaps();
    if Matches(PlainCaps(plain), CAP_ID_EXP, Normal) != [] {
      ChainUnique(ExtLinks(d.config, d.slot), addrs, WideAddrs(wide));
    } else {
      NoCaps(d.config, d.slot);
    }
  }

  lemma NoCaps(config: Config, s: Slot)
    ensures ExtCaps(config, s, []) == []
  {
  }
}
