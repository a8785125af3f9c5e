/** The bus scan against a described machine: what stands in each slot, laid out as bytes at
    the offsets of the configuration header of the PCI Local Bus Specification. */
module BusMachine {
  import opened Wrappers
  import opened ByteSeq
  import opened PciConfig
  import opened BusScan

  datatype Part = Endpoint | PciBridge(secondary: Byte) | CardBusBridge(secondary: Byte) | Unknown(header: nat)

  /** A function of a device; `several` is what it says of the functions beside it. */
  datatype Function = Function(vendor: nat, device: nat, several: bool, part: Part)

  type Machine = map<Slot, Function>

  predicate InRange(s: Slot) {
    s.bus <= 255 && s.dev <= 31 && s.func <= 7
  }

  predicate FunctionOk(f: Function) {
    f.vendor <= 0xffff && f.device <= 0xffff && (f.part.Unknown? ==> 3 <= f.part.header <= 127)
  }

  predicate MachineOk(m: Machine) {
    forall s | s in m :: InRange(s) && FunctionOk(m[s])
  }

  function HeaderNumber(part: Part): nat {
    match part
    case Endpoint => 0
    case PciBridge(_) => 1
    case CardBusBridge(_) => 2
    case Unknown(header) => header
  }

  predicate IsBridge(part: Part) {
    part.PciBridge? || part.CardBusBridge?
  }

  /** The bytes of a function: vendor at 0, device at 2, header type at 14 with the bit for
      several functions, secondary bus of a bridge at 25. */
  ghost predicate Shows(config: Config, s: Slot, f: Function) {
    && config(s, 0) == f.vendor % 256 && config(s, 1) == f.vendor / 256
    && config(s, 2) == f.device % 256 && config(s, 3) == f.device / 256
    && config(s, 14) == HeaderNumber(f.part) + (if f.several then 128 else 0)
    && (IsBridge(f.part) ==> config(s, 25) == f.part.secondary)
  }

  /** Configuration space is that of the machine; where nothing stands all bits read as ones. */
  ghost predicate Describes(m: Machine, config: Config) {
    && MachineOk(m)
    && (forall s {:trigger m[s]} | s in m :: Shows(config, s, m[s]))
    && (forall s {:trigger InRange(s)} | InRange(s) && s !in m :: forall pos | 0 <= pos < 4 :: config(s, pos) == 255)
  }

  /** The identifiers of a function are neither all zeros nor all ones. */
  predicate Identified(f: Function) {
    !(f.vendor == 0 && f.device == 0) && !(f.vendor == 0xffff && f.device == 0xffff)
  }

  predicate Stands(m: Machine, s: Slot) {
    s in m && Identified(m[s])
  }

  /** Function 0, or another one where function 0 stands and says that there are several. */
  predicate Answers(m: Machine, s: Slot) {
    var zero := Slot(s.bus, s.dev, 0);
    Stands(m, s) && (s.func == 0 || (Stands(m, zero) && m[zero].several))
  }

  /** Bridges of either kind, one behind the other, from bus 0 to a bus. */
  predicate Chain(m: Machine, bridges: seq<Slot>, bus: nat) {
    if bridges == [] then bus == 0
    else
      var s := bridges[|bridges| - 1];
      && Answers(m, s) && IsBridge(m[s].part) && m[s].part.secondary == bus
      && Chain(m, bridges[..|bridges| - 1], s.bus)
  }

  ghost predicate IsBehind(m: Machine, bus: nat) {
    exists bridges :: Chain(m, bridges, bus)
  }

  // ------------------------------------------------------- what the scan sees of it

  lemma SeenIdentified(m: Machine, config: Config, s: Slot)
    requires Describes(m, config) && s in m
    ensures InRange(s) && (Present(config, s) <==> Identified(m[s]))
    ensures DeviceOf(config, s) == Device(s, m[s].vendor, m[s].device, HeaderNumber(m[s].part))
    ensures Multi(config, s) <==> m[s].several
    ensures Behind(config, s).Some? <==> IsBridge(m[s].part)
    ensures IsBridge(m[s].part) ==> Behind(config, s).value == m[s].part.secondary
  {
    var f := m[s];
    assert Shows(config, s, f) && FunctionOk(f);
    Halves(f.vendor);
    Halves(f.device);
    assert Word(config, s, 0) == f.vendor && Word(config, s, 2) == f.device;
    var vd := Long(config, s, VENDOR_ID);
    assert vd == f.vendor + 0x1_0000 * f.device;
    assert vd % 0x1_0000 == f.vendor && vd / 0x1_0000 == f.device;
  }

  lemma Halves(x: nat)
    requires x <= 0xffff
    ensures x % 256 + 0x100 * (x / 256) == x
  {
  }

  lemma SeenAbsent(m: Machine, config: Config, s: Slot)
    requires Describes(m, config) && InRange(s) && s !in m
    ensures !Present(config, s)
  {
    assert Word(config, s, 0) == 0xffff && Word(config, s, 2) == 0xffff;
  }

  /** Exactly the described functions answer. */
  lemma SeenAnswers(m: Machine, config: Config, s: Slot)
    requires Describes(m, config)
    ensures Responds(config, s) <==> Answers(m, s)
  {
    hide Present, Multi, DeviceOf, Behind, Describes, Identified;
    var zero := Slot(s.bus, s.dev, 0);
    assert s.(func := 0) == zero;
    SlotsInRange(m, config, s);
    if InRange(s) {
      SeenStands(m, config, s);
      SeenStands(m, config, zero);
    }
  }

  lemma SlotsInRange(m: Machine, config: Config, s: Slot)
    requires Describes(m, config)
    ensures s in m ==> InRange(s)
  {
  }

  lemma SeenStands(m: Machine, config: Config, s: Slot)
    requires Describes(m, config) && InRange(s)
    ensures Present(config, s) <==> Stands(m, s)
    ensures Stands(m, s) ==> (Multi(config, s) <==> m[s].several)
  {
    hide Present, Multi, DeviceOf, Behind, Describes, Identified;
    if s in m {
      SeenIdentified(m, config, s);
    } else {
      SeenAbsent(m, config, s);
    }
  }

  /** One step to the bus behind a bridge. */
  lemma SeenEdge(m: Machine, config: Config, s: Slot, bus: nat)
    requires Describes(m, config)
    ensures Responds(config, s) && Behind(config, s) == Some(bus)
            <==> Answers(m, s) && IsBridge(m[s].part) && m[s].part.secondary == bus
  {
    hide Responds, Behind, Describes, DeviceOf, Identified;
    SeenAnswers(m, config, s);
    if Answers(m, s) {
      SeenIdentified(m, config, s);
    }
  }

  lemma {:induction false} ChainReached(m: Machine, config: Config, bridges: seq<Slot>, bus: nat)
    requires Describes(m, config) && Chain(m, bridges, bus)
    ensures Reachable(config, bus)
    decreases |bridges|
  {
    hide Describes, Responds, Behind, Answers, Reachable;
    if bridges == [] {
      StartReached(config);
    } else {
      var s := bridges[|bridges| - 1];
      ChainReached(m, config, bridges[..|bridges| - 1], s.bus);
      SeenEdge(m, config, s, bus);
      ReachableStep(config, s);
    }
  }

  lemma StartReached(config: Config)
    ensures Reachable(config, 0)
  {
    assert Path(config, [0]) && [0][|[0]| - 1] == 0;
  }

  lemma {:induction false} PathChain(m: Machine, config: Config, p: seq<nat>) returns (bridges: seq<Slot>)
    requires Describes(m, config) && Path(config, p)
    ensures Chain(m, bridges, p[|p| - 1])
    decreases |p|
  {
    hide Describes, Responds, Behind, Answers;
    if |p| == 1 {
      bridges := [];
    } else {
      var q := p[..|p| - 1];
      assert Path(config, q) by {
        forall i | 0 < i < |q|
          ensures Edge(config, q[i - 1], q[i])
        {
          assert q[i] == p[i];
        }
      }
      var before := PathChain(m, config, q);
      assert Edge(config, p[|p| - 2], p[|p| - 1]);
      var s: Slot :| s.bus == p[|p| - 2] && Responds(config, s) && Behind(config, s) == Some(p[|p| - 1]);
      SeenEdge(m, config, s, p[|p| - 1]);
      bridges := before + [s];
      assert bridges[..|bridges| - 1] == before;
    }
  }

  /** The buses that can be reached are those behind bridges of either kind, and bus 0. */
  lemma ReachedExactly(m: Machine, config: Config, bus: nat)
    requires Describes(m, config)
    ensures Reachable(config, bus) <==> IsBehind(m, bus)
  {
    hide Describes, Chain, Edge;
    if Reachable(config, bus) {
      var p :| Path(config, p) && p[|p| - 1] == bus;
      var bridges := PathChain(m, config, p);
    }
    if IsBehind(m, bus) {
      var bridges :| Chain(m, bridges, bus);
      ChainReached(m, config, bridges, bus);
    }
  }

  /** What the list says of a function. */
  function Entry(m: Machine, s: Slot): Device
    requires s in m
  {
    Device(s, m[s].vendor, m[s].device, HeaderNumber(m[s].part))
  }

  /** Of a described machine, the scan marks exactly bus 0 and the buses behind chains of bridges,
      and lists exactly the functions there that answer, each once, with its own vendor, device
      and header type. */
  method ScanMachine(a: Access, m: Machine) returns (busmap: array<bool>)
    requires a.devices == [] && Describes(m, a.config)
    modifies a
    ensures busmap.Length == 256 && forall b | 0 <= b < 256 :: busmap[b] <==> IsBehind(m, b)
    ensures forall d :: d in a.devices <==> IsBehind(m, d.slot.bus) && Answers(m, d.slot) && d == Entry(m, d.slot)
    ensures forall i, j | 0 <= i < j < |a.devices| :: a.devices[i].slot != a.devices[j].slot
  {
    busmap := Scan(a);
    hide Describes, Responds, DeviceOf, Reachable, IsBehind, Answers;
    forall b | 0 <= b < 256
      ensures busmap[b] <==> IsBehind(m, b)
    {
      ReachedExactly(m, a.config, b);
    }
    forall d: Device
      ensures d in a.devices <==> IsBehind(m, d.slot.bus) && Answers(m, d.slot) && d == Entry(m, d.slot)
    {
      ReachedExactly(m, a.config, d.slot.bus);
      ListedEntry(m, a.config, d.slot);
    }
  }

  lemma ListedEntry(m: Machine, config: Config, s: Slot)
    requires Describes(m, config)
    ensures Responds(config, s) <==> Answers(m, s)
    ensures Answers(m, s) ==> s in m && DeviceOf(config, s) == Entry(m, s)
  {
    hide Describes, Responds, DeviceOf;
    SeenAnswers(m, config, s);
    if Answers(m, s) {
      SeenIdentified(m, config, s);
    }
  }
}
