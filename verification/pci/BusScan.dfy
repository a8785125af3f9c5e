/** The recursive bus scan of lib/generic.c. */
module BusScan {
  import opened Wrappers
  import opened PciConfig

  /** An entry of the device list. */
  datatype Device = Device(slot: Slot, vendorId: int, deviceId: int, hdrtype: int)

  const BRIDGE := 1
  const CARDBUS := 2

  // --------------------------------------------------------------- what answers

  predicate IsSlot(s: Slot) {
    s.bus < 256 && s.dev < 32 && s.func < 8
  }

  function Pos(s: Slot): nat {
    s.dev * 8 + s.func
  }

  /** A function is there when its vendor register reads neither all zeros nor all ones. */
  predicate Present(config: Config, s: Slot) {
    var vd := Long(config, s, VENDOR_ID);
    vd != 0 && vd != NO_DEVICE
  }

  function HeaderType(config: Config, s: Slot): int {
    config(s, HEADER_TYPE) % 0x80
  }

  predicate Multi(config: Config, s: Slot) {
    config(s, HEADER_TYPE) >= 0x80
  }

  /** Function 0, or another one behind a function 0 that says it has several. */
  predicate Responds(config: Config, s: Slot) {
    var zero := s.(func := 0);
    IsSlot(s) && Present(config, s) && (s.func == 0 || (Present(config, zero) && Multi(config, zero)))
  }

  function DeviceOf(config: Config, s: Slot): Device {
    var vd := Long(config, s, VENDOR_ID);
    Device(s, vd % 0x1_0000, vd / 0x1_0000, HeaderType(config, s))
  }

  /** The bus behind a bridge. */
  function Behind(config: Config, s: Slot): (r: Option<nat>)
    ensures r.Some? ==> r.value < 256
  {
    if HeaderType(config, s) == BRIDGE || HeaderType(config, s) == CARDBUS then Some(config(s, SECONDARY_BUS)) else None
  }

  // --------------------------------------------------------------- reachability

  /** A bridge on bus `from` leads to bus `to`. */
  ghost predicate Edge(config: Config, from: nat, to: nat) {
    exists s: Slot :: s.bus == from && Responds(config, s) && Behind(config, s) == Some(to)
  }

  ghost predicate Path(config: Config, p: seq<nat>) {
    p != [] && p[0] == 0 && forall i {:trigger p[i]} | 0 < i < |p| :: Edge(config, p[i - 1], p[i])
  }

  ghost predicate Reachable(config: Config, bus: nat) {
    exists p :: Path(config, p) && p[|p| - 1] == bus
  }

  lemma ReachableStep(config: Config, s: Slot)
    requires Reachable(config, s.bus) && Responds(config, s) && Behind(config, s).Some?
    ensures Reachable(config, Behind(config, s).value)
  {
    var to := Behind(config, s).value;
    var p :| Path(config, p) && p[|p| - 1] == s.bus;
    assert Edge(config, s.bus, to);
    assert Path(config, p + [to]);
    assert (p + [to])[|p + [to]| - 1] == to;
  }

  // ---------------------------------------------------------- state of the scan

  /** The functions of a bus before position `pos` are listed, and the buses behind
      them are marked. */
  ghost predicate Covered(config: Config, marks: seq<bool>, devices: seq<Device>, bus: nat, pos: nat)
    requires |marks| == 256
  {
    forall s: Slot {:trigger Responds(config, s)} | s.bus == bus && Pos(s) < pos && Responds(config, s) ::
      DeviceOf(config, s) in devices && (Behind(config, s).Some? ==> marks[Behind(config, s).value])
  }

  /** Every entry of the list is a function that answers on a marked bus, and only
      buses that can be reached are marked. */
  ghost predicate Sound(config: Config, marks: seq<bool>, devices: seq<Device>)
    requires |marks| == 256
  {
    && (forall d | d in devices :: Responds(config, d.slot) && d == DeviceOf(config, d.slot) && marks[d.slot.bus])
    && (forall b | 0 <= b < 256 && marks[b] :: Reachable(config, b))
  }

  /** Within a bus the list runs from the last function to the first. */
  ghost predicate Ordered(devices: seq<Device>) {
    forall i, j | 0 <= i < j < |devices| && devices[i].slot.bus == devices[j].slot.bus ::
      Pos(devices[i].slot) > Pos(devices[j].slot)
  }

  /** The buses whose scan is over are covered; those in `open` are being scanned. */
  ghost predicate Closed(config: Config, marks: seq<bool>, devices: seq<Device>, open: set<nat>)
    requires |marks| == 256
  {
    forall b | 0 <= b < 256 && marks[b] && b !in open :: Covered(config, marks, devices, b, 256)
  }

  /** The scan only adds: marks, and entries on newly marked buses in front of the list. */
  ghost predicate Extends(marks: seq<bool>, devices: seq<Device>, marks': seq<bool>, devices': seq<Device>)
    requires |marks| == |marks'| == 256
  {
    && (forall b | 0 <= b < 256 && marks[b] :: marks'[b])
    && |devices| <= |devices'| && devices'[|devices'| - |devices|..] == devices
    && (forall i | 0 <= i < |devices'| - |devices| ::
          var b := devices'[i].slot.bus; b < 256 && marks'[b] && !marks[b])
  }

  ghost function Unmarked(marks: seq<bool>): set<nat> {
    set b: nat | b < |marks| && !marks[b]
  }

  lemma CoveredStays(config: Config, marks: seq<bool>, devices: seq<Device>, marks': seq<bool>, devices': seq<Device>,
                     bus: nat, pos: nat)
    requires |marks| == |marks'| == 256 && Covered(config, marks, devices, bus, pos)
    requires forall b | 0 <= b < 256 && marks[b] :: marks'[b]
    requires forall d | d in devices :: d in devices'
    ensures Covered(config, marks', devices', bus, pos)
  {
  }

  /** When all scans are over, everything reachable is marked. */
  lemma {:induction false} AllMarked(config: Config, marks: seq<bool>, devices: seq<Device>, p: seq<nat>)
    requires |marks| == 256 && marks[0] && Closed(config, marks, devices, {}) && Path(config, p)
    ensures p[|p| - 1] < 256 && marks[p[|p| - 1]]
    decreases |p|
  {
    if |p| > 1 {
      var q := p[..|p| - 1];
      assert Path(config, q) by {
        forall i | 0 < i < |q|
          ensures Edge(config, q[i - 1], q[i])
        {
          assert q[i] == p[i];
        }
      }
      AllMarked(config, marks, devices, q);
      assert Edge(config, p[|p| - 2], p[|p| - 1]);
      var s: Slot :| s.bus == p[|p| - 2] && Responds(config, s) && Behind(config, s) == Some(p[|p| - 1]);
      assert Covered(config, marks, devices, s.bus, 256);
    }
  }

  class Access {
    const config: Config
    var devices: seq<Device>

    constructor (config: Config)
      ensures this.config == config && devices == []
    {
      this.config := config;
      devices := [];
    }

    /** Puts a device in front of the list. */
    method LinkDev(d: Device)
      modifies this
      ensures devices == [d] + old(devices)
    {
      devices := [d] + devices;
    }
  }

  // --------------------------------------------------------------------- the scan

  /** What holds between two steps of the scan. */
  ghost predicate Good(config: Config, marks: seq<bool>, devices: seq<Device>, open: set<nat>)
    requires |marks| == 256
  {
    Sound(config, marks, devices) && Ordered(devices) && Closed(config, marks, devices, open)
  }

  /** No function of the bus from position `pos` on is listed. */
  ghost predicate NotYet(devices: seq<Device>, bus: nat, pos: nat) {
    forall d | d in devices && d.slot.bus == bus :: Pos(d.slot) < pos
  }

  /** Marking a bus opens it. */
  lemma BusOpened(config: Config, marks: seq<bool>, devices: seq<Device>, bus: nat, open: set<nat>)
    requires |marks| == 256 && bus < 256 && !marks[bus] && Reachable(config, bus) && Good(config, marks, devices, open)
    ensures Good(config, marks[bus := true], devices, open + {bus})
    ensures At(config, marks[bus := true], devices, open + {bus}, bus, 0)
    ensures Extends(marks, devices, marks[bus := true], devices)
    ensures Unmarked(marks[bus := true]) < Unmarked(marks)
  {
    assert bus in Unmarked(marks) && bus !in Unmarked(marks[bus := true]);
    forall b | 0 <= b < 256 && b != bus && marks[b] && b !in open
      ensures Covered(config, marks[bus := true], devices, b, 256)
    {
      CoveredStays(config, marks, devices, marks[bus := true], devices, b, 256);
    }
  }

  /** The scan of `bus` has come to position `pos`. */
  ghost predicate At(config: Config, marks: seq<bool>, devices: seq<Device>, open: set<nat>, bus: nat, pos: nat)
    requires |marks| == 256
  {
    && bus < 256 && bus in open && marks[bus]
    && NotYet(devices, bus, pos)
    && Covered(config, marks, devices, bus, pos)
    && Good(config, marks, devices, open)
  }

  lemma ExtendsTrans(m0: seq<bool>, d0: seq<Device>, m1: seq<bool>, d1: seq<Device>, m2: seq<bool>, d2: seq<Device>)
    requires |m0| == |m1| == |m2| == 256 && Extends(m0, d0, m1, d1) && Extends(m1, d1, m2, d2)
    ensures Extends(m0, d0, m2, d2)
  {
    var n := |d2| - |d1|;
    forall i | 0 <= i < |d2|
      ensures d2[i] == if i < n then d2[i] else d1[i - n]
    {
      if i >= n {
        assert d2[n..][i - n] == d2[i];
      }
    }
    forall i | 0 <= i < |d0|
      ensures d2[|d2| - |d0|..][i] == d0[i]
    {
      assert d1[|d1| - |d0|..][i] == d1[|d1| - |d0| + i];
    }
  }

  /** Functions that do not answer are passed over. */
  lemma PassedOver(config: Config, marks: seq<bool>, devices: seq<Device>, open: set<nat>, bus: nat, pos: nat,
                   pos': nat)
    requires |marks| == 256 && pos <= pos' && At(config, marks, devices, open, bus, pos)
    requires forall s: Slot {:trigger Responds(config, s)} | s.bus == bus && pos <= Pos(s) < pos' ::
               !Responds(config, s)
    ensures At(config, marks, devices, open, bus, pos')
  {
  }

  /** A function that answers goes in front of the list. */
  lemma Listed(config: Config, marks: seq<bool>, devices: seq<Device>, open: set<nat>, t: Slot)
    requires |marks| == 256 && At(config, marks, devices, open, t.bus, Pos(t)) && Responds(config, t)
    ensures Good(config, marks, [DeviceOf(config, t)] + devices, open)
    ensures NotYet([DeviceOf(config, t)] + devices, t.bus, Pos(t) + 1)
  {
    hide Responds;
    hide Reachable, Multi, Present;
    var devices' := [DeviceOf(config, t)] + devices;
    forall b | 0 <= b < 256 && marks[b] && b !in open
      ensures Covered(config, marks, devices', b, 256)
    {
      CoveredStays(config, marks, devices, marks, devices', b, 256);
    }
    forall i, j | 0 <= i < j < |devices'| && devices'[i].slot.bus == devices'[j].slot.bus
      ensures Pos(devices'[i].slot) > Pos(devices'[j].slot)
    {
      assert devices'[j] == devices[j - 1];
      if i == 0 {
        assert devices[j - 1] in devices;
      } else {
        assert devices'[i] == devices[i - 1];
      }
    }
  }

  /** What is scanned behind a function does not disturb the bus it stands on. */
  lemma CameBack(config: Config, marks: seq<bool>, devices: seq<Device>, marks': seq<bool>, devices': seq<Device>,
                 open: set<nat>, t: Slot)
    requires |marks| == |marks'| == 256 && At(config, marks, devices, open, t.bus, Pos(t)) && Responds(config, t)
    requires Extends(marks, [DeviceOf(config, t)] + devices, marks', devices')
    requires Good(config, marks', devices', open)
    requires Behind(config, t).Some? ==> marks'[Behind(config, t).value]
    ensures At(config, marks', devices', open, t.bus, Pos(t) + 1)
  {
    hide Good, Covered, Extends, NotYet, DeviceOf, Behind, Reachable;
    var mid := [DeviceOf(config, t)] + devices;
    InFront(marks, mid, marks', devices');
    PutFirst(DeviceOf(config, t), devices);
    StillMarked(marks, mid, marks', devices');
    NotYetHere(config, devices, t);
    StillNotYet(mid, devices', t.bus, Pos(t) + 1, marks);
    StillCovered(config, marks, devices, marks', devices', t);
  }

  lemma PutFirst(d: Device, devices: seq<Device>)
    ensures d in [d] + devices && forall e | e in devices :: e in [d] + devices
    ensures forall e | e in [d] + devices :: e == d || e in devices
  {
  }

  lemma StillMarked(marks: seq<bool>, devices: seq<Device>, marks': seq<bool>, devices': seq<Device>)
    requires |marks| == |marks'| == 256 && Extends(marks, devices, marks', devices')
    ensures forall b | 0 <= b < 256 && marks[b] :: marks'[b]
  {
  }

  /** With its own entry, the list has the functions up to this one. */
  lemma NotYetHere(config: Config, devices: seq<Device>, t: Slot)
    requires NotYet(devices, t.bus, Pos(t))
    ensures NotYet([DeviceOf(config, t)] + devices, t.bus, Pos(t) + 1)
  {
    PutFirst(DeviceOf(config, t), devices);
  }

  /** The entries before an extension are there after it, behind the new ones. */
  lemma InFront(marks: seq<bool>, devices: seq<Device>, marks': seq<bool>, devices': seq<Device>)
    requires |marks| == |marks'| == 256 && Extends(marks, devices, marks', devices')
    ensures forall d | d in devices :: d in devices'
    ensures forall d | d in devices' && d !in devices :: d.slot.bus < 256 && !marks[d.slot.bus]
  {
    var n := |devices'| - |devices|;
    assert devices' == devices'[..n] + devices;
  }

  lemma StillNotYet(devices: seq<Device>, devices': seq<Device>, bus: nat, pos: nat, marks: seq<bool>)
    requires |marks| == 256 && bus < 256 && marks[bus] && NotYet(devices, bus, pos)
    requires forall d | d in devices' && d !in devices :: d.slot.bus < 256 && !marks[d.slot.bus]
    ensures NotYet(devices', bus, pos)
  {
  }

  lemma StillCovered(config: Config, marks: seq<bool>, devices: seq<Device>, marks': seq<bool>, devices': seq<Device>,
                     t: Slot)
    requires |marks| == |marks'| == 256 && IsSlot(t) && Covered(config, marks, devices, t.bus, Pos(t))
    requires forall b | 0 <= b < 256 && marks[b] :: marks'[b]
    requires forall d | d in devices :: d in devices'
    requires DeviceOf(config, t) in devices'
    requires Behind(config, t).Some? ==> marks'[Behind(config, t).value]
    ensures Covered(config, marks', devices', t.bus, Pos(t) + 1)
  {
    CoveredStays(config, marks, devices, marks', devices', t.bus, Pos(t));
    forall s: Slot | s.bus == t.bus && Pos(s) < Pos(t) + 1 && Responds(config, s)
      ensures DeviceOf(config, s) in devices' && (Behind(config, s).Some? ==> marks'[Behind(config, s).value])
    {
      if Pos(s) == Pos(t) {
        assert s == t;
      }
    }
  }

  /** A new entry for a bus that was not marked extends the list. */
  lemma ExtendsByOne(marks0: seq<bool>, devices0: seq<Device>, marks: seq<bool>, devices: seq<Device>, d: Device)
    requires |marks0| == |marks| == 256 && Extends(marks0, devices0, marks, devices)
    requires d.slot.bus < 256 && marks[d.slot.bus] && !marks0[d.slot.bus]
    ensures Extends(marks0, devices0, marks, [d] + devices)
  {
    var devices' := [d] + devices;
    var n := |devices'| - |devices0|;
    assert devices'[n..] == devices[n - 1..];
  }

  // --------------------------------------------------------------------- the scan

  /** Scans a bus, unless it has been seen before. */
  method ScanBus(a: Access, busmap: array<bool>, bus: nat, ghost open: set<nat>)
    requires busmap.Length == 256 && bus < 256 && Reachable(a.config, bus)
    requires Good(a.config, busmap[..], a.devices, open)
    modifies a, busmap
    ensures Good(a.config, busmap[..], a.devices, open) && busmap[bus]
    ensures Extends(old(busmap[..]), old(a.devices), busmap[..], a.devices)
    decreases Unmarked(busmap[..]), 0
  {
    hide Good, At, Unmarked, Reachable;
    if busmap[bus] {
      return;
    }
    ghost var marks, devices := busmap[..], a.devices;
    BusOpened(a.config, marks, devices, bus, open);
    hide Extends;
    busmap[bus] := true;
    assert busmap[..] == marks[bus := true];
    var dev := 0;
    while dev < 32
      invariant 0 <= dev <= 32 && Unmarked(busmap[..]) < Unmarked(marks)
      invariant At(a.config, busmap[..], a.devices, open + {bus}, bus, dev * 8)
      invariant Extends(marks, devices, busmap[..], a.devices)
    {
      ScanDev(a, busmap, bus, dev, open + {bus}, marks, devices);
      dev := dev + 1;
    }
    BusClosed(a.config, busmap[..], a.devices, bus, open);
  }

  lemma BusClosed(config: Config, marks: seq<bool>, devices: seq<Device>, bus: nat, open: set<nat>)
    requires |marks| == 256 && At(config, marks, devices, open + {bus}, bus, 256)
    ensures bus < 256 && marks[bus] && Good(config, marks, devices, open)
  {
  }

  lemma ExtendsUnmarked(m0: seq<bool>, d0: seq<Device>, m1: seq<bool>, d1: seq<Device>)
    requires |m0| == |m1| == 256 && Extends(m0, d0, m1, d1)
    ensures Unmarked(m1) <= Unmarked(m0)
  {
  }

  /** The functions of one device: the first, and the others when it has several. */
  method ScanDev(a: Access, busmap: array<bool>, bus: nat, dev: nat, ghost open: set<nat>,
                 ghost marks0: seq<bool>, ghost devices0: seq<Device>)
    requires busmap.Length == |marks0| == 256 && bus < 256 && !marks0[bus] && dev < 32
    requires Extends(marks0, devices0, busmap[..], a.devices)
    requires At(a.config, busmap[..], a.devices, open, bus, dev * 8)
    modifies a, busmap
    ensures At(a.config, busmap[..], a.devices, open, bus, dev * 8 + 8)
    ensures Extends(marks0, devices0, busmap[..], a.devices)
    ensures Unmarked(busmap[..]) <= Unmarked(old(busmap[..]))
    decreases Unmarked(busmap[..]), 2
  {
    hide At, Unmarked, Extends;
    var multi := false;
    var func := 0;
    while func == 0 || (multi && func < 8)
      invariant 0 <= func <= 8
      invariant func > 0 ==> multi == (Present(a.config, Slot(bus, dev, 0)) && Multi(a.config, Slot(bus, dev, 0)))
      invariant At(a.config, busmap[..], a.devices, open, bus, dev * 8 + func)
      invariant Extends(marks0, devices0, busmap[..], a.devices)
      invariant Unmarked(busmap[..]) <= Unmarked(old(busmap[..]))
      decreases 8 - func
    {
      var ht := ScanFunction(a, busmap, Slot(bus, dev, func), open, marks0, devices0);
      if func == 0 {
        multi := ht.Some? && ht.value >= 0x80;
      }
      func := func + 1;
    }
    OthersSilent(a.config, bus, dev, func);
    PassedOver(a.config, busmap[..], a.devices, open, bus, dev * 8 + func, dev * 8 + 8);
  }

  /** Behind a function 0 that is missing or alone, no other function answers. */
  lemma OthersSilent(config: Config, bus: nat, dev: nat, func: nat)
    requires 0 < func && (func < 8 ==> !(Present(config, Slot(bus, dev, 0)) && Multi(config, Slot(bus, dev, 0))))
    ensures forall s: Slot {:trigger Responds(config, s)} |
              s.bus == bus && dev * 8 + func <= Pos(s) < dev * 8 + 8 :: !Responds(config, s)
  {
    forall s: Slot | s.bus == bus && dev * 8 + func <= Pos(s) < dev * 8 + 8
      ensures !Responds(config, s)
    {
      if s.dev == dev {
        assert s.(func := 0) == Slot(bus, dev, 0);
      }
    }
  }

  /** One function: it is listed when it is there, and a bridge is followed. The result
      is its header type register. */
  method ScanFunction(a: Access, busmap: array<bool>, t: Slot, ghost open: set<nat>,
                      ghost marks0: seq<bool>, ghost devices0: seq<Device>) returns (ht: Option<int>)
    requires busmap.Length == |marks0| == 256 && IsSlot(t) && !marks0[t.bus]
    requires t.func > 0 ==> Present(a.config, t.(func := 0)) && Multi(a.config, t.(func := 0))
    requires Extends(marks0, devices0, busmap[..], a.devices)
    requires At(a.config, busmap[..], a.devices, open, t.bus, Pos(t))
    modifies a, busmap
    ensures ht == if Present(a.config, t) then Some(a.config(t, HEADER_TYPE)) else None
    ensures At(a.config, busmap[..], a.devices, open, t.bus, Pos(t) + 1)
    ensures Extends(marks0, devices0, busmap[..], a.devices)
    ensures Unmarked(busmap[..]) <= Unmarked(old(busmap[..]))
    decreases Unmarked(busmap[..]), 1
  {
    hide Covered, NotYet, Good, Extends, Unmarked, Reachable, Word, Long, At;
    var vd := Long(a.config, t, VENDOR_ID);
    if vd == 0 || vd == NO_DEVICE {
      PassedOver(a.config, busmap[..], a.devices, open, t.bus, Pos(t), Pos(t) + 1);
      return None;
    }
    ht := Some(a.config(t, HEADER_TYPE));
    ListFunction(a, busmap, t, vd, ht.value, open, marks0, devices0);
  }

  method ListFunction(a: Access, busmap: array<bool>, t: Slot, vd: int, ht: int, ghost open: set<nat>,
                      ghost marks0: seq<bool>, ghost devices0: seq<Device>)
    requires busmap.Length == |marks0| == 256 && IsSlot(t) && !marks0[t.bus]
    requires Responds(a.config, t) && vd == Long(a.config, t, VENDOR_ID) && ht == a.config(t, HEADER_TYPE)
    requires Extends(marks0, devices0, busmap[..], a.devices)
    requires At(a.config, busmap[..], a.devices, open, t.bus, Pos(t))
    modifies a, busmap
    ensures At(a.config, busmap[..], a.devices, open, t.bus, Pos(t) + 1)
    ensures Extends(marks0, devices0, busmap[..], a.devices)
    ensures Unmarked(busmap[..]) <= Unmarked(old(busmap[..]))
    decreases Unmarked(busmap[..]), 1, 0
  {
    ghost var marks, devices := busmap[..], a.devices;
    var d := Device(t, vd % 0x1_0000, vd / 0x1_0000, ht % 0x80);
    assert d == DeviceOf(a.config, t);
    hide Covered, NotYet, Good, Extends, Unmarked, Reachable, Word, Long, At, DeviceOf, Responds;
    Facts(a.config, marks, devices, open, t);
    a.LinkDev(d);
    ghost var listed := a.devices;
    Listed(a.config, marks, devices, open, t);
    ExtendsByOne(marks0, devices0, marks, devices, d);
    if d.hdrtype == BRIDGE || d.hdrtype == CARDBUS {
      ReachableStep(a.config, t);
      ScanBus(a, busmap, a.config(t, SECONDARY_BUS), open);
    }
    CameBack(a.config, marks, devices, busmap[..], a.devices, open, t);
    ExtendsTrans(marks0, devices0, marks, listed, busmap[..], a.devices);
    ExtendsUnmarked(marks, listed, busmap[..], a.devices);
  }

  lemma Facts(config: Config, marks: seq<bool>, devices: seq<Device>, open: set<nat>, t: Slot)
    requires |marks| == 256 && At(config, marks, devices, open, t.bus, Pos(t))
    ensures t.bus < 256 && marks[t.bus] && Reachable(config, t.bus) && Extends(marks, devices, marks, devices)
  {
  }

  /** The whole scan: it ends, marks exactly the buses that can be reached, and lists
      each function that answers on them exactly once. */
  method Scan(a: Access) returns (busmap: array<bool>)
    requires a.devices == []
    modifies a
    ensures busmap.Length == 256 && forall b | 0 <= b < 256 :: busmap[b] <==> Reachable(a.config, b)
    ensures forall s: Slot ::
              (exists d :: d in a.devices && d.slot == s) <==> Reachable(a.config, s.bus) && Responds(a.config, s)
    ensures forall d | d in a.devices :: d == DeviceOf(a.config, d.slot)
    ensures forall i, j | 0 <= i < j < |a.devices| :: a.devices[i].slot != a.devices[j].slot
  {
    busmap := new bool[256](_ => false);
    assert Path(a.config, [0]) && [0][|[0]| - 1] == 0;
    ScanBus(a, busmap, 0, {});
    ScanOver(a.config, busmap[..], a.devices);
  }

  /** With no bus open, the marks and the list are complete. */
  lemma ScanOver(config: Config, marks: seq<bool>, devices: seq<Device>)
    requires |marks| == 256 && marks[0] && Good(config, marks, devices, {})
    ensures forall b | 0 <= b < 256 :: marks[b] <==> Reachable(config, b)
    ensures forall s: Slot ::
              (exists d :: d in devices && d.slot == s) <==> Reachable(config, s.bus) && Responds(config, s)
    ensures forall d | d in devices :: d == DeviceOf(config, d.slot)
    ensures forall i, j | 0 <= i < j < |devices| :: devices[i].slot != devices[j].slot
  {
    forall b: nat | Reachable(config, b)
      ensures b < 256 && marks[b]
    {
      var p :| Path(config, p) && p[|p| - 1] == b;
      AllMarked(config, marks, devices, p);
    }
    forall s: Slot | Reachable(config, s.bus) && Responds(config, s)
      ensures DeviceOf(config, s) in devices && DeviceOf(config, s).slot == s
    {
      assert Covered(config, marks, devices, s.bus, 256);
    }
    forall i, j | 0 <= i < j < |devices|
      ensures devices[i].slot != devices[j].slot
    {
      assert devices[i].slot.bus == devices[j].slot.bus ==> Pos(devices[i].slot) > Pos(devices[j].slot);
    }
  }
}
