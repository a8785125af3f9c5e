/** The reader of lib/dump.c with its buffers: each device has an allocation of 256 bytes
    that is exchanged for one of 4096 when a byte beyond the first comes. */
module DumpReader {
  import opened Wrappers
  import opened ByteSeq
  import opened Hex
  import opened DumpFile

  class Device {
    const addr: Address
    var data: array<Byte>
    var len: nat

    constructor (addr: Address)
      ensures this.addr == addr && fresh(data) && Image() == Dev(addr, Blank(SHORT), 0)
    {
      this.addr := addr;
      var d := new Byte[SHORT](_ => 0xff);
      assert d[..] == Blank(SHORT);
      data, len := d, 0;
    }

    /** The device as a value. */
    function Image(): Dev
      reads this, data
    {
      Dev(addr, data[..], len)
    }

    /** A new allocation, all ones, and nothing given. */
    method AllocData(n: nat)
      modifies this
      ensures fresh(data) && data[..] == Blank(n) && len == 0
    {
      var d := new Byte[n](_ => 0xff);
      assert d[..] == Blank(n);
      data, len := d, 0;
    }

    /** One byte at offset i. */
    method StoreByte(i: nat, j: Byte)
      requires i < LONG && DevOk(Image())
      modifies this, data
      ensures Image() == Store(old(Image()), i, j)
      ensures DevOk(Image())
      ensures data == old(data) || fresh(data)
    {
      if i >= data.Length {
        var dd := data;
        AllocData(LONG);
        var k := 0;
        while k < SHORT
          modifies data
          invariant 0 <= k <= SHORT && data[..] == old(data[..k]) + Blank(LONG - k)
        {
          data[k] := dd[k];
          k := k + 1;
        }
      }
      data[i] := j;
      if i + 1 > len {
        len := i + 1;
      }
    }

    /** The loop over the bytes of a row. */
    method TakeRow(start: nat, line: string, from: nat) returns (err: Option<string>)
      requires NUL !in line && from <= |line| && DevOk(Image())
      modifies this, data
      ensures match ReadRow(old(Image()), start, line, from)
              case Stored(d) => err == None && Image() == d
              case BadRow(error) => err == Some(error)
      ensures DevOk(Image()) && (data == old(data) || fresh(data))
    {
      var i: nat, z: nat := start, from;
      while ByteAt(line, z)
        invariant z <= |line| && DevOk(Image()) && (data == old(data) || fresh(data))
        invariant ReadRow(old(Image()), start, line, from) == ReadRow(Image(), i, line, z)
        decreases |line| - z
      {
        if i >= LONG {
          return Some(TOO_BIG);
        }
        TwoDigits(line, z);
        StoreByte(i, HexAt(line, z, 2));
        i := i + 1;
        z := z + 2;
        if z < |line| {
          z := z + 1;
        }
      }
      if z < |line| {
        return Some(MALFORMED);
      }
      return None;
    }

    /** dump_read: succeeds exactly within what the dump gave. */
    method Read(pos: nat, n: nat) returns (bytes: Option<seq<Byte>>)
      requires len <= data.Length
      ensures bytes.Some? <==> pos + n <= len
      ensures bytes.Some? ==> bytes.value == Image().data[pos..pos + n]
    {
      if pos + n > len {
        return None;
      }
      return Some(data[pos..pos + n]);
    }
  }

  /** dump_validate. */
  method Validate(s: string, fmt: string) returns (ok: bool)
    ensures ok == Valid(s, fmt)
  {
    var i := 0;
    while i < |fmt|
      invariant 0 <= i <= |fmt|
      invariant forall k | 0 <= k < i :: if fmt[k] == '#' then Digit(At(s, k)) >= 0 else At(s, k) == fmt[k]
    {
      if if fmt[i] == '#' then Digit(At(s, i)) < 0 else fmt[i] != At(s, i) {
        return false;
      }
      i := i + 1;
    }
    return true;
  }

  // --------------------------------------------------------------------- whole files

  /** The devices as values. */
  ghost function Images(devices: seq<Device>): (r: seq<Dev>)
    reads devices, set d | d in devices :: d.data
    ensures |r| == |devices| && forall i | 0 <= i < |devices| :: r[i] == devices[i].Image()
  {
    seq(|devices|, i requires 0 <= i < |devices| reads devices, set d | d in devices :: d.data => devices[i].Image())
  }

  /** No two devices share a buffer. */
  ghost predicate Apart(devices: seq<Device>)
    reads devices, set d | d in devices :: d.data
  {
    && (forall i, j | 0 <= i < j < |devices| :: devices[i] != devices[j] && devices[i].data != devices[j].data)
    && (forall d | d in devices :: DevOk(d.Image()))
  }

  class Access {
    /** Newest first. */
    var devices: seq<Device>

    constructor ()
      ensures devices == []
    {
      devices := [];
    }

    /** strchr on what fgets has read. */
    method FindNewline(text: string, pos: nat) returns (end: Option<nat>)
      requires pos < |text|
      ensures end == LineEnd(text, pos, 0)
    {
      var n := 0;
      while pos + n < |text| && n < LINE_MAX && text[pos + n] != NUL && text[pos + n] != '\n'
        invariant n <= LINE_MAX && pos + n <= |text| && LineEnd(text, pos, 0) == LineEnd(text, pos, n)
      {
        n := n + 1;
      }
      if pos + n == |text| || n == LINE_MAX || text[pos + n] != '\n' {
        return None;
      }
      return Some(pos + n);
    }

    /** The line at pos, trimmed. */
    method ReadLine(text: string, pos: nat) returns (line: Option<(string, nat)>)
      requires pos < |text|
      ensures line == LineAt(text, pos)
    {
      hide LineEnd;
      var end := FindNewline(text, pos);
      if end.None? {
        return None;
      }
      var buf := text[pos..end.value];
      var len := |buf|;
      if len > 0 && buf[len - 1] == '\r' {
        len := len - 1;
      }
      assert buf[..|buf|] == buf;
      return Some((buf[..len], end.value + 1));
    }

    /** The address on a line, if it begins a device. */
    method ReadSlot(line: string) returns (addr: Option<Address>)
      ensures addr == SlotLine(line)
    {
      var short := Validate(line, SLOT);
      if short && Decimal(At(line, 6)) {
        return Some(Address(0, HexAt(line, 0, 2), HexAt(line, 3, 2), Digit(At(line, 6))));
      }
      var long := Validate(line, LONG_SLOT);
      if long && Decimal(At(line, 11)) {
        return Some(Address(HexAt(line, 0, 4), HexAt(line, 5, 2), HexAt(line, 8, 2), Digit(At(line, 11))));
      }
      return None;
    }

    /** One line: a device, the end of one, a row of one, or anything else. */
    method Take(line: string, open: bool) returns (err: Option<string>, open': bool)
      requires NUL !in line && Apart(devices) && (open ==> devices != [])
      modifies this, devices, set d | d in devices :: d.data
      ensures Apart(devices) && (open' ==> devices != [])
      ensures forall d | d in devices ::
                (d in old(devices) || fresh(d)) && (fresh(d.data) || d.data in old(set d | d in devices :: d.data))
      ensures match TakeLine(State(old(Images(devices)), open), line)
              case Failed(error) => err == Some(error)
              case Loaded(st) => err == None && st == State(Images(devices), open')
    {
      hide ReadRow, SlotLine, RowLine, Store, Blank, Valid;
      err, open' := None, open;
      var slot := ReadSlot(line);
      if slot.Some? {
        AddDevice(slot.value);
        return None, true;
      }
      if line == "" {
        return None, false;
      }
      if open {
        var row := RowLine(line);
        if row.Some? {
          RowIsLong(line);
          err := AddRow(row.value.0, line, row.value.1);
        }
      }
    }

    /** A new device, in front of the list. */
    method AddDevice(addr: Address)
      requires Apart(devices)
      modifies this
      ensures Apart(devices) && Images(devices) == [Dev(addr, Blank(SHORT), 0)] + old(Images(devices))
      ensures |devices| == 1 + |old(devices)| && devices[1..] == old(devices) && fresh(devices[0])
      ensures fresh(devices[0].data)
    {
      hide Blank;
      var d := new Device(addr);
      devices := [d] + devices;
    }

    /** A row of the newest device. */
    method AddRow(start: nat, line: string, from: nat) returns (err: Option<string>)
      requires NUL !in line && from <= |line| && devices != [] && Apart(devices)
      modifies devices[0], devices[0].data
      ensures Apart(devices) && (devices[0].data == old(devices[0].data) || fresh(devices[0].data))
      ensures forall i | 0 < i < |devices| :: devices[i].data == old(devices[i].data)
      ensures var was := old(Images(devices));
              match ReadRow(was[0], start, line, from)
              case Stored(d) => err == None && Images(devices) == [d] + was[1..]
              case BadRow(error) => err == Some(error)
    {
      hide ReadRow, Store;
      err := devices[0].TakeRow(start, line, from);
    }

    /** dump_init: the devices of a dump, or the error that stops the program. */
    method Init(text: string) returns (err: Option<string>)
      requires devices == []
      modifies this
      ensures match ParseFile(text, 0, START)
              case Failed(error) => err == Some(error)
              case Loaded(st) => err == None && Images(devices) == st.devs
      ensures err == None ==> Apart(devices)
    {
      assert Images(devices) == START.devs && StateOk(START);
      hide TakeLine, LineAt, StateOk;
      var pos, open := 0, false;
      while pos < |text|
        invariant pos <= |text| && Apart(devices) && (open ==> devices != [])
        invariant forall d | d in devices :: fresh(d) && fresh(d.data)
        invariant StateOk(State(Images(devices), open))
        invariant ParseFile(text, 0, START) == ParseFile(text, pos, State(Images(devices), open))
      {
        var line := ReadLine(text, pos);
        if line.None? {
          return Some(UNTERMINATED);
        }
        err, open := Take(line.value.0, open);
        if err.Some? {
          return;
        }
        pos := line.value.1;
      }
      return None;
    }

    /** dump_read for a device that is not of the dump itself: the newest one at its address. */
    method ReadAt(addr: Address, pos: nat, n: nat) returns (bytes: Option<seq<Byte>>)
      requires Apart(devices)
      ensures bytes == ReadFrom(Images(devices), addr, pos, n)
    {
      var i := 0;
      while i < |devices| && devices[i].addr != addr
        invariant 0 <= i <= |devices|
        invariant ReadFrom(Images(devices), addr, pos, n) == ReadFrom(Images(devices)[i..], addr, pos, n)
      {
        assert Images(devices)[i..][1..] == Images(devices)[i + 1..];
        i := i + 1;
      }
      if i == |devices| {
        return None;
      }
      assert Images(devices)[i..][0] == devices[i].Image();
      bytes := devices[i].Read(pos, n);
    }
  }

  /** What reading at an address gives: the bytes of the first device there, if the dump
      has them. */
  function ReadFrom(devs: seq<Dev>, addr: Address, pos: nat, n: nat): Option<seq<Byte>>
    requires forall i | 0 <= i < |devs| :: DevOk(devs[i])
  {
    if devs == [] then None
    else if devs[0].addr != addr then ReadFrom(devs[1..], addr, pos, n)
    else if pos + n > devs[0].len then None
    else
      assert DevOk(devs[0]);
      Some(devs[0].data[pos..pos + n])
  }
}
