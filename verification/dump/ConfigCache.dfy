/** The byte cache of lspcie.c in front of the configuration space of a device, and the
    hexadecimal dump that is printed from it. */
module ConfigCache {
  import opened Wrappers
  import opened ByteSeq
  import opened Hex
  import opened DumpFile
  import opened DumpInverse

  const HEADER_TYPE := 0x0e
  const CARDBUS := 2

  /** The device behind the cache: its bytes, which reads of which length succeed, and how
      many bytes a read that fails has delivered before. */
  datatype Backend = Backend(bytes: nat -> Byte, succeeds: (nat, nat) -> bool, delivers: (nat, nat) -> nat)

  class Device {
    const backend: Backend
    var config: array<Byte>
    var present: array<bool>
    var cached: nat
    /** The reads made from the device: position and length. */
    ghost var fetched: seq<(nat, nat)>

    /** What is marked as present is what the device holds. */
    ghost predicate Valid()
      reads `config, `present, config, present
    {
      && config.Length == present.Length && config.Length >= 64
      && forall i | 0 <= i < present.Length && present[i] :: config[i] == backend.bytes(i)
    }

    predicate Present(i: nat)
      reads `present, present
    {
      i < present.Length && present[i]
    }

    /** The places of the bytes that are present. */
    ghost function Marks(): (r: set<nat>)
      reads `present, present
      ensures forall i: nat :: i in r <==> Present(i)
    {
      set i: nat | i < present.Length && present[i]
    }

    constructor (backend: Backend)
      ensures this.backend == backend && fresh(config) && fresh(present) && config.Length == present.Length == 64
      ensures forall i | 0 <= i < 64 :: present[i]
      ensures cached == 64 && fetched == []
    {
      this.backend := backend;
      config, present := new Byte[64], new bool[64](_ => true);
      cached, fetched := 64, [];
    }

    /** pci_read_block: the bytes, or a failure after some of them. */
    method ReadBlock(pos: nat, len: nat) returns (ok: bool)
      requires pos + len <= config.Length
      modifies config, `fetched
      ensures ok == backend.succeeds(pos, len) && fetched == old(fetched) + [(pos, len)]
      ensures ok ==> forall i | pos <= i < pos + len :: config[i] == backend.bytes(i)
      ensures forall i | 0 <= i < config.Length ::
                config[i] == old(config[i]) || (pos <= i < pos + len && config[i] == backend.bytes(i))
    {
      ok := backend.succeeds(pos, len);
      fetched := fetched + [(pos, len)];
      var i := 0;
      while i < len && (ok || i < backend.delivers(pos, len))
        modifies config
        invariant 0 <= i <= len
        invariant forall k | 0 <= k < config.Length ::
                    config[k] == if pos <= k < pos + i then backend.bytes(k) else old(config[k])
      {
        config[pos + i] := backend.bytes(pos + i);
        i := i + 1;
      }
    }

    /** Doubles the buffers until they reach `end`; nothing in the new part is present. */
    method Grow(end: nat)
      requires Valid()
      modifies this`config, this`present
      ensures Valid() && fresh(config) && fresh(present)
      ensures present.Length == Doubled(old(present.Length), end) && Marks() == old(Marks())
    {
      var size := config.Length;
      while end > size
        invariant config.Length <= size && Doubled(size, end) == Doubled(config.Length, end)
        decreases end - size
      {
        size := size * 2;
      }
      var c, p := new Byte[size], new bool[size];
      var i := 0;
      while i < size
        modifies c, p
        invariant 0 <= i <= size
        invariant forall k | 0 <= k < i :: if k < config.Length then c[k] == config[k] && p[k] == present[k] else !p[k]
      {
        if i < config.Length {
          c[i], p[i] := config[i], present[i];
        } else {
          p[i] := false;
        }
        i := i + 1;
      }
      config, present := c, p;
    }

    /** What is missing of a range: it begins and ends with a byte that is not present. */
    method Trim(start: nat, count: nat) returns (pos: nat, len: nat)
      ensures (pos, len) == Gap(Marks(), start, count)
    {
      pos, len := start, count;
      while pos < present.Length && len > 0 && present[pos]
        invariant Gap(Marks(), pos, len) == Gap(Marks(), start, count)
        decreases len
      {
        pos, len := pos + 1, len - 1;
      }
      while pos + len <= present.Length && len > 0 && present[pos + len - 1]
        invariant len > 0 ==> !Present(pos)
        invariant Gap(Marks(), pos, len) == Gap(Marks(), start, count)
        decreases len
      {
        len := len - 1;
      }
    }

    /** Makes a range present. When all of it is, nothing happens; otherwise the device is
        read exactly once, from the first missing byte to the last, and the range is
        present exactly when that read succeeds. */
    method ConfigFetch(start: nat, count: nat) returns (ok: bool)
      requires Valid()
      modifies this`config, this`present, this`fetched, config, present
      ensures Valid() && (config == old(config) || fresh(config)) && (present == old(present) || fresh(present))
      ensures ok == Fetches(backend, old(Marks()), start, count)
      ensures fetched == old(fetched) + Reads(old(Marks()), start, count)
      ensures if ok then Extended(old(Marks()), Marks(), start, count) else Marks() == old(Marks())
      ensures present.Length
           == if old(Gap(Marks(), start, count)).1 == 0 then old(present.Length)
              else Doubled(old(present.Length), start + count)
    {
      var end := start + count;
      var pos, len := Trim(start, count);
      GapEnds(Marks(), start, count);
      hide Gap;
      if len == 0 {
        return true;
      }
      if end > present.Length {
        Grow(end);
      }
      ok := Load(pos, len);
    }

    /** Reads a range into the buffers; marks it when that succeeds. */
    method Load(pos: nat, len: nat) returns (ok: bool)
      requires Valid() && pos + len <= present.Length
      modifies config, present, `fetched
      ensures Valid() && ok == backend.succeeds(pos, len) && fetched == old(fetched) + [(pos, len)]
      ensures if ok then Extended(old(Marks()), Marks(), pos, len) else Marks() == old(Marks())
    {
      ok := ReadBlock(pos, len);
      assert Marks() == old(Marks());
      if ok {
        SetPresent(pos, len);
      }
      forall i | 0 <= i < present.Length && present[i]
        ensures config[i] == backend.bytes(i)
      {
        assert i in Marks();
      }
    }

    /** memset on the marks. */
    method SetPresent(pos: nat, len: nat)
      requires pos + len <= present.Length
      modifies present
      ensures Extended(old(Marks()), Marks(), pos, len)
    {
      var i := 0;
      while i < len
        invariant 0 <= i <= len
        invariant forall k | 0 <= k < present.Length :: present[k] == (pos <= k < pos + i || old(present[k]))
      {
        present[pos + i] := true;
        i := i + 1;
      }
    }

    /** check_conf_range: the program dies on a byte that is not present. */
    method CheckConfRange(pos: nat, len: nat) returns (ok: bool)
      requires pos + len <= present.Length
      ensures ok <==> forall i | pos <= i < pos + len :: Present(i)
    {
      var i := 0;
      while i < len
        invariant 0 <= i <= len && forall k | pos <= k < pos + i :: Present(k)
      {
        if !present[pos + i] {
          assert !Present(pos + i);
          return false;
        }
        i := i + 1;
      }
      return true;
    }

    method GetConfByte(pos: nat) returns (value: Option<int>)
      requires Valid() && pos + 1 <= present.Length
      ensures value == if Present(pos) then Some(backend.bytes(pos)) else None
    {
      var ok := CheckConfRange(pos, 1);
      if !ok {
        return None;
      }
      return Some(config[pos]);
    }

    /** The little-endian value that the device holds. */
    method GetConfWord(pos: nat) returns (value: Option<int>)
      requires Valid() && pos + 2 <= present.Length
      ensures value
           == if Present(pos) && Present(pos + 1) then
                Some((backend.bytes(pos) as int) + 0x100 * (backend.bytes(pos + 1) as int))
              else None
    {
      var ok := CheckConfRange(pos, 2);
      if !ok {
        return None;
      }
      return Some((config[pos] as int) + 0x100 * (config[pos + 1] as int));
    }

    method GetConfLong(pos: nat) returns (value: Option<int>)
      requires Valid() && pos + 4 <= present.Length
      ensures value
           == if Present(pos) && Present(pos + 1) && Present(pos + 2) && Present(pos + 3) then
                Some((backend.bytes(pos) as int) + 0x100 * (backend.bytes(pos + 1) as int)
                     + 0x1_0000 * (backend.bytes(pos + 2) as int) + 0x100_0000 * (backend.bytes(pos + 3) as int))
              else None
    {
      var ok := CheckConfRange(pos, 4);
      if !ok {
        return None;
      }
      var a, b, c, d := config[pos] as int, config[pos + 1] as int, config[pos + 2] as int, config[pos + 3] as int;
      return Some(a + 0x100 * b + 0x1_0000 * c + 0x100_0000 * d);
    }

    /** scan_device: the header, and for CardBus bridges as much again. */
    static method ScanDevice(backend: Backend) returns (d: Device?)
      ensures d == null <==> !backend.succeeds(0, 64)
      ensures d != null ==> fresh(d) && fresh(d.config) && fresh(d.present) && d.backend == backend && d.Valid()
      ensures d != null ==>
                && d.cached == (if backend.bytes(0x0e) % 0x80 == 2 && backend.succeeds(64, 64) then 128 else 64)
                && Extended({}, d.Marks(), 0, d.cached)
                && d.fetched == [(0, 64)] + if backend.bytes(0x0e) % 0x80 == 2 then [(64, 64)] else []
    {
      var n := new Device(backend);
      var ok := n.ReadBlock(0, 64);
      if !ok {
        return null;
      }
      assert n.present[HEADER_TYPE];
      assert n.Valid() && forall i | 0 <= i < 64 :: n.Present(i);
      if n.config[HEADER_TYPE] % 0x80 == CARDBUS {
        ok := n.ConfigFetch(64, 64);
        if ok {
          n.cached := n.cached + 64;
        }
      }
      return n;
    }

    /** How many bytes there are to print. */
    method HexCount(hex: int) returns (cnt: nat)
      requires Valid() && (cached == 64 || cached == 128) && Covers(Marks(), 0, cached)
      modifies this`config, this`present, this`fetched, config, present
      ensures Valid() && cnt == Shown(backend, hex, cached, old(Marks())) && cnt <= present.Length
      ensures Extended(old(Marks()), Marks(), 0, cnt)
    {
      hide Gap, Valid;
      cnt := cached;
      if hex >= 3 {
        var ok := ConfigFetch(cnt, 256 - cnt);
        GapSame(old(Marks()), Marks(), 256, 4096 - 256);
        if ok {
          cnt := 256;
          if hex >= 4 {
            ok := ConfigFetch(256, 4096 - 256);
            if ok {
              cnt := 4096;
            }
          }
        }
      }
      assert cnt - 1 in Marks();
    }

    /** show_hex_dump: the rows of the bytes that the device holds, as many as the option
        asks for and the device gives. */
    method ShowHexDump(hex: int) returns (text: string)
      requires Valid() && (cached == 64 || cached == 128) && Covers(Marks(), 0, cached)
      modifies this`config, this`present, this`fetched, config, present
      ensures Valid() && text == Joined(Rows(Held(backend.bytes, Shown(backend, hex, cached, old(Marks()))), 0))
    {
      hide Gap, Fetches, Rows, Joined;
      var n := HexCount(hex);
      assert forall i | 0 <= i < n :: i in Marks();
      text := PrintBytes(n);
    }

    /** The loop of show_hex_dump. */
    method PrintBytes(n: nat) returns (text: string)
      requires Valid() && n <= present.Length && n <= LONG && n % 16 == 0 && forall i | 0 <= i < n :: Present(i)
      ensures text == Joined(Rows(Held(backend.bytes, n), 0))
    {
      hide Offset, HexText, Rows, Joined, Held;
      ghost var bytes := Held(backend.bytes, n);
      text := "";
      var i := 0;
      while i < n
        invariant 0 <= i <= n && text == Printed(bytes, i)
      {
        if i % 16 == 0 {
          text := text + Offset(i) + ":";
        }
        var b := GetConfByte(i);
        assert Present(i);
        text := text + (" " + HexText(b.value, 2));
        if i % 16 == 15 {
          text := text + "\n";
        }
        i := i + 1;
      }
      PrintedIsRows(bytes, 0);
      assert bytes[0..] == bytes;
    }
  }

  /** A device that has `size` bytes: reads within them succeed, and no others. */
  ghost predicate HasBytes(backend: Backend, size: nat) {
    forall pos: nat, len: nat :: backend.succeeds(pos, len) <==> pos + len <= size
  }

  /** Scanning a device that has so many bytes, and dumping it: of a plain header 64 bytes, of
      that of a CardBus bridge 128, with -xxx 256 and with -xxxx 4096 are shown, where the
      device has them. */
  method DumpDevice(backend: Backend, hex: int, size: nat) returns (text: Option<string>)
    requires HasBytes(backend, size)
    ensures text.Some? <==> size >= 64
    ensures text.Some? ==>
              var header := if backend.bytes(0x0e) % 0x80 == 2 && size >= 128 then 128 else 64;
              var n := if hex >= 4 && size >= 4096 then 4096 else if hex >= 3 && size >= 256 then 256 else header;
              text.value == Joined(Rows(Held(backend.bytes, n), 0))
  {
    hide Rows, Joined, Gap, Fetches;
    var d := Device.ScanDevice(backend);
    if d == null {
      return None;
    }
    FetchesWithin(backend, d.Marks(), d.cached, 256 - d.cached, size);
    FetchesWithin(backend, d.Marks(), 256, 4096 - 256, size);
    var rows := d.ShowHexDump(hex);
    text := Some(rows);
  }

  /** Of a range that is not there at all, all is fetched. */
  lemma FetchesWithin(backend: Backend, marks: set<nat>, start: nat, count: nat, size: nat)
    requires HasBytes(backend, size) && count > 0 && forall i: nat | start <= i < start + count :: i !in marks
    ensures Fetches(backend, marks, start, count) <==> start + count <= size
  {
    assert start !in marks && start + count - 1 !in marks;
    assert Gap(marks, start, count) == (start, count);
  }

  ghost predicate Covers(marks: set<nat>, start: nat, count: nat) {
    forall i: nat | start <= i < start + count :: i in marks
  }

  /** A range has been added to the marks, and nothing else. */
  ghost predicate Extended(was: set<nat>, marks: set<nat>, start: nat, count: nat) {
    forall i: nat :: i in marks <==> i in was || start <= i < start + count
  }

  /** The size of a buffer that is doubled until it reaches `end`. */
  ghost function Doubled(size: nat, end: nat): (r: nat)
    requires size > 0
    ensures size <= r && end <= r && (r == size || r < 2 * end)
    decreases end - size
  {
    if end > size then Doubled(2 * size, end) else size
  }

  /** What is missing of a range: where it begins, and how long it is. */
  ghost function Gap(marks: set<nat>, start: nat, count: nat): (r: (nat, nat))
    ensures start <= r.0 && r.0 + r.1 <= start + count
    decreases count
  {
    if count == 0 then
      (start, 0)
    else if start in marks then
      Gap(marks, start + 1, count - 1)
    else if start + count - 1 in marks then
      Gap(marks, start, count - 1)
    else
      (start, count)
  }

  /** It begins with the first byte that is missing and ends with the last one. */
  lemma {:induction false} GapEnds(marks: set<nat>, start: nat, count: nat)
    ensures var g := Gap(marks, start, count);
            && (g.1 == 0 <==> Covers(marks, start, count))
            && (g.1 > 0 ==> g.0 !in marks && g.0 + g.1 - 1 !in marks)
            && (forall i: nat | start <= i < g.0 || g.0 + g.1 <= i < start + count :: i in marks)
    decreases count
  {
    if count > 0 {
      if start in marks {
        GapEnds(marks, start + 1, count - 1);
      } else if start + count - 1 in marks {
        GapEnds(marks, start, count - 1);
      }
    }
  }

  /** Where the same bytes of a range are present, the same are missing. */
  lemma {:induction false} GapSame(a: set<nat>, b: set<nat>, start: nat, count: nat)
    requires forall i: nat | start <= i < start + count :: i in a <==> i in b
    ensures Gap(a, start, count) == Gap(b, start, count)
    decreases count
  {
    if count > 0 {
      assert start in a <==> start in b;
      assert start + count - 1 in a <==> start + count - 1 in b;
      if start in a {
        GapSame(a, b, start + 1, count - 1);
      } else if start + count - 1 in a {
        GapSame(a, b, start, count - 1);
      }
    }
  }

  /** The device gives what is missing of a range. */
  ghost predicate Fetches(backend: Backend, marks: set<nat>, start: nat, count: nat) {
    var gap := Gap(marks, start, count);
    gap.1 == 0 || backend.succeeds(gap.0, gap.1)
  }

  /** The reads that a fetch makes. */
  ghost function Reads(marks: set<nat>, start: nat, count: nat): seq<(nat, nat)> {
    var gap := Gap(marks, start, count);
    if gap.1 == 0 then [] else [gap]
  }

  /** How many bytes a dump shows, when `cached` have been read before. */
  ghost function Shown(backend: Backend, hex: int, cached: nat, marks: set<nat>): nat
    requires cached <= 256
  {
    if hex < 3 || !Fetches(backend, marks, cached, 256 - cached) then
      cached
    else if hex < 4 || !Fetches(backend, marks, 256, 4096 - 256) then
      256
    else
      4096
  }

  /** The first n bytes of the device. */
  function Held(bytes: nat -> Byte, n: nat): (r: seq<Byte>)
    ensures |r| == n && forall i | 0 <= i < n :: r[i] == bytes(i)
  {
    seq(n, i requires i >= 0 => bytes(i))
  }
}