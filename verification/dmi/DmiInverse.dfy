/** Tables as section 6.1.3 of DMTF DSP0134 lays them out, and their decoding. */
module DmiInverse {
  import opened Parts
  import opened ByteSeq
  import opened DmiTable

  /** A structure: what follows its header of four bytes, and its strings. */
  datatype Record = Record(kind: Byte, handle: (Byte, Byte), body: seq<Byte>, strings: seq<seq<Byte>>)

  predicate RecordOk(r: Record) {
    |r.body| + 4 < 0x100 && StringsOk(r.strings)
  }

  /** No string is empty or holds a zero. */
  predicate StringsOk(strings: seq<seq<Byte>>) {
    strings == [] || (strings[0] != [] && 0 !in strings[0] && StringsOk(strings[1..]))
  }

  /** Each string with its terminator. */
  function Strings(strings: seq<seq<Byte>>): seq<Byte> {
    if strings == [] then [] else strings[0] + [0] + Strings(strings[1..])
  }

  /** A structure without strings ends with two zeros, one with strings with one more. */
  function Encode(r: Record): (e: seq<Byte>)
    requires RecordOk(r)
    ensures |e| >= 6
  {
    [r.kind, |r.body| + 4, r.handle.0, r.handle.1] + r.body + Tail(r.strings)
  }

  function Tail(strings: seq<seq<Byte>>): (e: seq<Byte>)
    ensures |e| >= 2
  {
    if strings == [] then [0, 0] else Strings(strings) + [0]
  }

  function Table(records: seq<Record>): seq<Byte>
    requires forall r | r in records :: RecordOk(r)
  {
    if records == [] then [] else Encode(records[0]) + Table(records[1..])
  }

  /** String number n, as it is recorded. */
  function StringNo(strings: seq<seq<Byte>>, n: nat): seq<Byte> {
    if n == 0 then NOT_SPECIFIED else if n <= |strings| then Filtered(strings[n - 1]) else BAD_INDEX
  }

  /** The item of a slot structure; byte k of its body stands at offset k + 4. */
  function Slot(r: Record): Item {
    if |r.body| < 8 then NO_ITEM
    else
      var item := NO_ITEM.(slot := StringNo(r.strings, r.body[0]));
      if |r.body| < 13 then item
      else WithAddress(item, Word(r.body[9], r.body[10]), r.body[11], r.body[12])
  }

  /** The items of the records from number k on, as far as they are looked at. */
  function Slots(records: seq<Record>, count: nat, num: nat, stop: bool): seq<Item> {
    if records == [] || !(count < num || num == 0) then []
    else
      var r := records[0];
      (if r.kind == SYSTEM_SLOT then [Slot(r)] else [])
        + if r.kind == END_OF_TABLE && stop then [] else Slots(records[1..], count + 1, num, stop)
  }

  lemma StringsJoined(strings: seq<seq<Byte>>, rest: seq<Byte>)
    requires strings != [] && rest == Strings(strings[1..])
    ensures Strings(strings) + [0] == strings[0] + ([0] + (rest + [0]))
    ensures |Strings(strings)| == |strings[0]| + 1 + |rest|
  {
    assert Strings(strings) == strings[0] + [0] + rest;
    FourParts(strings[0], rest);
  }

  lemma FourParts(s: seq<Byte>, rest: seq<Byte>)
    ensures s + [0] + rest + [0] == s + ([0] + (rest + [0]))
  {
  }

  lemma StringThere(buf: seq<Byte>, i: nat, s: seq<Byte>)
    requires Has(buf, s, i) && 0 !in s
    ensures forall j | i <= j < i + |s| :: buf[j] != 0
  {
    forall j | i <= j < i + |s|
      ensures buf[j] != 0
    {
      assert buf[i + (j - i)] == s[j - i];
    }
  }

  /** Strings and their end: the first string, its terminator, and the rest. */
  lemma Parted(buf: seq<Byte>, i: nat, strings: seq<seq<Byte>>)
    requires StringsOk(strings) && Has(buf, Strings(strings) + [0], i)
    ensures strings == [] ==> buf[i] == 0
    ensures strings != [] ==>
              var n := |strings[0]|;
              && n > 0 && |Strings(strings)| == n + 1 + |Strings(strings[1..])|
              && Has(buf, strings[0], i) && buf[i] != 0 && buf[i + n] == 0
              && Has(buf, Strings(strings[1..]) + [0], i + n + 1)
              && forall j | i <= j < i + n :: buf[j] != 0
  {
    if strings == [] {
      HasFirst(buf, Strings(strings) + [0], i);
    } else {
      hide Strings, Has;
      var s, rest := strings[0], Strings(strings[1..]) + [0];
      StringsJoined(strings, Strings(strings[1..]));
      HasPart(buf, i, s, [0] + rest);
      HasPart(buf, i + |s|, [0], rest);
      HasFirst(buf, [0], i + |s|);
      StringThere(buf, i, s);
    }
  }

  /** The end of the strings is found, and nothing before it is taken for it. */
  lemma {:induction false} TailBack(buf: seq<Byte>, i: nat, strings: seq<seq<Byte>>)
    requires strings != [] && StringsOk(strings) && Has(buf, Strings(strings) + [0], i)
    ensures TwoZeros(buf, i) == i + |Strings(strings)| - 1
    decreases |strings|
  {
    hide Has, TwoZeros;
    var n := |strings[0]|;
    Parted(buf, i, strings);
    Parted(buf, i + n + 1, strings[1..]);
    InBounds(buf, i + n + 1, Strings(strings[1..]) + [0]);
    NoZeros(buf, i, n);
    if strings[1..] == [] {
      Found(buf, i + n);
    } else {
      assert !TwoZerosAt(buf, i + n);
      NoZeros(buf, i + n, 1);
      TailBack(buf, i + n + 1, strings[1..]);
    }
  }

  lemma InBounds(buf: seq<Byte>, i: nat, x: seq<Byte>)
    requires Has(buf, x, i)
    ensures i + |x| <= |buf|
  {
  }

  lemma Found(buf: seq<Byte>, i: nat)
    requires i + 1 < |buf| && buf[i] == 0 && buf[i + 1] == 0
    ensures TwoZeros(buf, i) == i
  {
  }

  predicate TwoZerosAt(buf: seq<Byte>, j: nat) {
    j + 1 < |buf| && buf[j] == 0 && buf[j + 1] == 0
  }

  /** The search passes over anything that holds no two zeros. */
  lemma {:induction false} NoZeros(buf: seq<Byte>, i: nat, n: nat)
    requires i + n + 1 <= |buf| && forall j | i <= j < i + n :: !TwoZerosAt(buf, j)
    ensures TwoZeros(buf, i) == TwoZeros(buf, i + n)
    decreases n
  {
    if n > 0 {
      assert !TwoZerosAt(buf, i);
      NoZeros(buf, i + 1, n - 1);
    }
  }

  /** Strings are found by their numbers. */
  lemma {:induction false} StringBack(buf: seq<Byte>, i: nat, strings: seq<seq<Byte>>, end: nat, n: nat)
    requires StringsOk(strings) && Has(buf, Strings(strings) + [0], i) && n > 0
    requires end + 1 == i + |Strings(strings)| && end + 1 < |buf| && buf[end] == 0 && buf[end + 1] == 0
    ensures StringAt(buf, i, end, n) == StringNo(strings, n)
    decreases |strings|
  {
    hide Strings, Has, StringAt, StringNo;
    Parted(buf, i, strings);
    StringNoRest(strings, n);
    if strings == [] {
      StringAtNone(buf, i, end, n);
    } else {
      var m := |strings[0]|;
      StringAtFirst(buf, i, end, n, m);
      if n > 1 {
        StringBack(buf, i + m + 1, strings[1..], end, n - 1);
      } else {
        Slice(buf, i, strings[0]);
      }
    }
  }

  lemma StringNoRest(strings: seq<seq<Byte>>, n: nat)
    requires n > 0
    ensures StringNo(strings, n)
         == if strings == [] then BAD_INDEX else if n == 1 then Filtered(strings[0]) else StringNo(strings[1..], n - 1)
  {
  }

  lemma Slice(buf: seq<Byte>, i: nat, x: seq<Byte>)
    requires Has(buf, x, i)
    ensures i + |x| <= |buf| && buf[i..i + |x|] == x
  {
  }

  /** Where the two zeros behind a record stand. */
  function EndOf(r: Record, pos: nat): nat {
    pos + 4 + |r.body| + (if r.strings == [] then 0 else |Strings(r.strings)| - 1)
  }

  /** The parts of an encoded record. */
  lemma RecordParts(buf: seq<Byte>, pos: nat, r: Record)
    requires RecordOk(r) && Has(buf, Encode(r), pos)
    ensures pos + 4 <= |buf| && buf[pos] == r.kind && buf[pos + 1] == |r.body| + 4
    ensures Has(buf, r.body, pos + 4) && Has(buf, Tail(r.strings), pos + 4 + |r.body|)
    ensures pos + |Encode(r)| <= |buf|
  {
    var head: seq<Byte> := [r.kind, |r.body| + 4, r.handle.0, r.handle.1];
    assert Encode(r) == head + r.body + Tail(r.strings);
    HasPart(buf, pos, head + r.body, Tail(r.strings));
    HasPart(buf, pos, head, r.body);
    assert buf[pos + 0] == head[0] && buf[pos + 1] == head[1];
  }

  lemma TailLength(r: Record)
    requires RecordOk(r)
    ensures |Encode(r)| == 4 + |r.body| + if r.strings == [] then 2 else |Strings(r.strings)| + 1
  {
    hide Strings;
  }

  lemma NoStrings(buf: seq<Byte>, i: nat)
    requires Has(buf, Tail([]), i)
    ensures i + 1 < |buf| && buf[i] == 0 && buf[i + 1] == 0
  {
    var tail := Tail([]);
    assert buf[i + 0] == tail[0] && buf[i + 1] == tail[1];
  }

  /** The two zeros behind a record are where its encoding ends. */
  lemma EndBack(buf: seq<Byte>, pos: nat, r: Record)
    requires RecordOk(r) && Has(buf, Encode(r), pos)
    ensures var end := EndOf(r, pos);
            && TwoZeros(buf, pos + 4 + |r.body|) == end && end + 2 == pos + |Encode(r)| <= |buf|
            && buf[end] == 0 && buf[end + 1] == 0
  {
    hide Has, Encode, Strings, StringsOk, TwoZeros;
    RecordParts(buf, pos, r);
    TailLength(r);
    var i := pos + 4 + |r.body|;
    if r.strings == [] {
      NoStrings(buf, i);
      Found(buf, i);
    } else {
      TailBack(buf, i, r.strings);
    }
  }

  /** The string and the address of a slot stand in its body. */
  lemma BodyBack(buf: seq<Byte>, pos: nat, body: seq<Byte>)
    requires Has(buf, body, pos + 4)
    ensures |body| >= 1 ==> pos + 4 < |buf| && buf[pos + 4] == body[0]
    ensures |body| >= 13 ==>
              && pos + 16 < |buf| && buf[pos + 13] == body[9] && buf[pos + 14] == body[10]
              && buf[pos + 15] == body[11] && buf[pos + 16] == body[12]
  {
    if |body| >= 1 {
      assert buf[pos + 4 + 0] == body[0];
    }
    if |body| >= 13 {
      assert buf[pos + 4 + 9] == body[9] && buf[pos + 4 + 10] == body[10];
      assert buf[pos + 4 + 11] == body[11] && buf[pos + 4 + 12] == body[12];
    }
  }

  lemma TextBack(buf: seq<Byte>, i: nat, strings: seq<seq<Byte>>, end: nat, n: nat)
    requires StringsOk(strings) && Has(buf, Tail(strings), i) && end + 1 < |buf| && buf[end] == 0 && buf[end + 1] == 0
    requires end == if strings == [] then i else i + |Strings(strings)| - 1
    ensures i <= end + 1 && StringAt(buf, i, end, n) == StringNo(strings, n)
  {
    if n > 0 && strings != [] {
      StringBack(buf, i, strings, end, n);
    }
  }

  /** A slot is read back. */
  lemma SlotBack(buf: seq<Byte>, pos: nat, r: Record)
    requires RecordOk(r) && Has(buf, Encode(r), pos)
    requires pos + 4 <= |buf| && buf[pos + 1] == |r.body| + 4
    requires var end := EndOf(r, pos); end + 1 < |buf| && buf[end] == 0 && buf[end + 1] == 0
    ensures ItemAt(buf, pos, EndOf(r, pos)) == Slot(r)
  {
    hide Has, StringAt, StringNo, Encode, Tail, Strings, StringsOk, Word, WithAddress;
    RecordParts(buf, pos, r);
    BodyBack(buf, pos, r.body);
    if |r.body| >= 8 {
      TextBack(buf, pos + 4 + |r.body|, r.strings, EndOf(r, pos), r.body[0]);
    }
  }

  lemma StructureBack(buf: seq<Byte>, pos: nat, r: Record, stop: bool)
    requires RecordOk(r) && Has(buf, Encode(r), pos)
    ensures pos + 4 <= |buf|
    ensures StructureAt(buf, pos, stop)
         == Structure(pos + |Encode(r)|, if r.kind == SYSTEM_SLOT then [Slot(r)] else [],
                      r.kind == END_OF_TABLE && stop)
  {
    RecordParts(buf, pos, r);
    EndBack(buf, pos, r);
    hide Has, TwoZeros, ItemAt, Encode, Slot, EndOf;
    SlotBack(buf, pos, r);
  }

  /** A table decodes to its slots, in order, with their strings and addresses. Fewer than
      four bytes may follow it. */
  lemma {:induction false} TableBack(buf: seq<Byte>, pos: nat, records: seq<Record>, count: nat, num: nat, stop: bool)
    requires forall r | r in records :: RecordOk(r)
    requires Has(buf, Table(records), pos) && |buf| < pos + |Table(records)| + 4
    ensures pos <= |buf| && Items(buf, pos, count, num, stop) == Slots(records, count, num, stop)
    decreases |records|
  {
    hide Has, StructureAt, Encode, Slot;
    InBounds(buf, pos, Table(records));
    if records != [] {
      var r := records[0];
      HasPart(buf, pos, Encode(r), Table(records[1..]));
      StructureBack(buf, pos, r, stop);
      TableBack(buf, pos + |Encode(r)|, records[1..], count + 1, num, stop);
    }
  }

  /** The result is the slots among the records looked at. */
  lemma RecordsBack(records: seq<Record>, padding: seq<Byte>, num: nat, stop: bool)
    requires (forall r | r in records :: RecordOk(r)) && |padding| < 4
    ensures Items(Table(records) + padding, 0, 0, num, stop) == Slots(records, 0, num, stop)
  {
    TableBack(Table(records) + padding, 0, records, 0, num, stop);
  }

  // ------------------------------------------------------------------ what a table says

  datatype Address = NoAddress | Address(segment: nat, bus: nat, dev: nat, func: nat)

  /** What follows the first twelve bytes of a slot structure: too little for an address, or the
      second byte of characteristics, the address and whatever comes behind it. */
  datatype Rest = Brief(bytes: seq<Byte>) | Full(characteristics: Byte, address: Address, more: seq<Byte>)

  /** A system slot with the number of the string that designates it and the seven bytes from
      its type to its characteristics, a slot structure of an old version, or another one. */
  datatype Entry =
    | SystemSlot(handle: (Byte, Byte), designation: Byte, middle: seq<Byte>, rest: Rest, strings: seq<seq<Byte>>)
    | OldSlot(handle: (Byte, Byte), body: seq<Byte>, strings: seq<seq<Byte>>)
    | Other(kind: Byte, handle: (Byte, Byte), body: seq<Byte>, strings: seq<seq<Byte>>)

  /** Four bytes of ones mean no address, so the last address of all cannot be written. */
  predicate AddressOk(a: Address) {
    a.Address? ==>
      && a.segment <= 65535 && a.bus <= 255 && a.dev <= 31 && a.func <= 7
      && a != Address(65535, 255, 31, 7)
  }

  predicate EntryOk(e: Entry) {
    && StringsOk(e.strings)
    && match e
       case SystemSlot(_, _, middle, rest, _) =>
         && |middle| == 7
         && (match rest
             case Brief(bytes) => |bytes| <= 4
             case Full(_, address, more) => AddressOk(address) && |more| <= 238)
       case OldSlot(_, body, _) => |body| <= 7
       case Other(kind, _, body, _) => kind != 9 && |body| <= 251
  }

  /** Segment, low byte first, then bus, then device and function in one byte. */
  function AddressBytes(a: Address): seq<Byte>
    requires AddressOk(a)
  {
    match a
    case NoAddress => [255, 255, 255, 255]
    case Address(segment, bus, dev, func) => [segment % 256, segment / 256, bus, dev * 8 + func]
  }

  function RestBytes(r: Rest): seq<Byte>
    requires r.Full? ==> AddressOk(r.address)
  {
    match r
    case Brief(bytes) => bytes
    case Full(characteristics, address, more) => [characteristics] + AddressBytes(address) + more
  }

  function Recorded(e: Entry): Record
    requires EntryOk(e)
  {
    match e
    case SystemSlot(handle, designation, middle, rest, strings) =>
      Record(9, handle, [designation] + middle + RestBytes(rest), strings)
    case OldSlot(handle, body, strings) => Record(9, handle, body, strings)
    case Other(kind, handle, body, strings) => Record(kind, handle, body, strings)
  }

  function AllRecorded(entries: seq<Entry>): (r: seq<Record>)
    requires forall e | e in entries :: EntryOk(e)
    ensures |r| == |entries|
  {
    if entries == [] then [] else [Recorded(entries[0])] + AllRecorded(entries[1..])
  }

  /** Byte by byte what is shown of a string: characters from the blank to the tilde as they
      are, a point for any other. */
  function Shown(s: seq<Byte>): seq<Byte> {
    seq(|s|, i requires 0 <= i < |s| => if 32 <= s[i] <= 126 then s[i] else 46)
  }

  function Designation(strings: seq<seq<Byte>>, n: nat): seq<Byte> {
    if n == 0 then Ascii("Not Specified")
    else if n <= |strings| then Shown(strings[n - 1])
    else Ascii("<BAD INDEX>")
  }

  /** The item that an entry stands for: an old slot is all empty, and without an address the
      numbers are 0. */
  function Meaning(e: Entry): Item
    requires !e.Other?
  {
    match e
    case OldSlot(_, _, _) => Item([], 0, 0, 0, 0)
    case SystemSlot(_, designation, _, rest, strings) =>
      var text := Designation(strings, designation);
      if rest.Full? && rest.address.Address? then
        Item(text, rest.address.segment, rest.address.bus, rest.address.dev, rest.address.func)
      else Item(text, 0, 0, 0, 0)
  }

  /** The items of the slots among the first `num` entries, or among all when num is 0, up to
      the end marker of type 127 if that is to be minded. */
  function Expected(entries: seq<Entry>, count: nat, num: nat, stop: bool): seq<Item> {
    if entries == [] || (num != 0 && count >= num) then []
    else
      var e := entries[0];
      (if e.Other? then [] else [Meaning(e)])
        + if e.Other? && e.kind == 127 && stop then [] else Expected(entries[1..], count + 1, num, stop)
  }

  lemma RecordedOk(e: Entry)
    requires EntryOk(e)
    ensures RecordOk(Recorded(e)) && (Recorded(e).kind == SYSTEM_SLOT <==> !e.Other?)
    ensures Recorded(e).kind == END_OF_TABLE <==> e.Other? && e.kind == 127
  {
  }

  lemma AllRecordedOk(entries: seq<Entry>)
    requires forall e | e in entries :: EntryOk(e)
    ensures forall r | r in AllRecorded(entries) :: RecordOk(r)
  {
    hide EntryOk, RecordOk, Recorded;
    if entries != [] {
      RecordedOk(entries[0]);
      AllRecordedOk(entries[1..]);
    }
  }

  lemma ShownIsFiltered(s: seq<Byte>)
    ensures Filtered(s) == Shown(s)
  {
  }

  lemma DesignationBack(strings: seq<seq<Byte>>, n: nat)
    ensures StringNo(strings, n) == Designation(strings, n)
  {
    hide Filtered, Shown, Ascii;
    if 0 < n <= |strings| {
      ShownIsFiltered(strings[n - 1]);
    }
  }

  lemma AddressBack(item: Item, a: Address)
    requires AddressOk(a) && item.domain == 0 && item.bus == 0 && item.dev == 0 && item.func == 0
    ensures var b := AddressBytes(a);
            && |b| == 4
            && WithAddress(item, Word(b[0], b[1]), b[2], b[3])
               == if a.NoAddress? then item else Item(item.slot, a.segment, a.bus, a.dev, a.func)
  {
    if a.Address? {
      assert a.segment % 256 + 0x100 * (a.segment / 256) == a.segment;
      assert (a.dev * 8 + a.func) / 8 == a.dev && (a.dev * 8 + a.func) % 8 == a.func;
    }
  }

  /** The bytes of an address stand in the body of the record. */
  lemma AddressThere(designation: Byte, middle: seq<Byte>, rest: Rest)
    requires |middle| == 7 && rest.Full? && AddressOk(rest.address)
    ensures var body := [designation] + middle + RestBytes(rest); var b := AddressBytes(rest.address);
            && |b| == 4 && |body| == 13 + |rest.more|
            && body[0] == designation && body[9] == b[0] && body[10] == b[1] && body[11] == b[2] && body[12] == b[3]
  {
  }

  lemma MeaningBack(e: Entry)
    requires EntryOk(e) && !e.Other?
    ensures Slot(Recorded(e)) == Meaning(e)
  {
    hide StringsOk, StringNo, Designation, WithAddress, Word, AddressBytes;
    if e.SystemSlot? {
      DesignationBack(e.strings, e.designation);
      if e.rest.Full? {
        AddressThere(e.designation, e.middle, e.rest);
        AddressBack(NO_ITEM.(slot := Designation(e.strings, e.designation)), e.rest.address);
      }
    }
  }

  lemma {:induction false} ExpectedBack(entries: seq<Entry>, count: nat, num: nat, stop: bool)
    requires forall e | e in entries :: EntryOk(e)
    ensures Slots(AllRecorded(entries), count, num, stop) == Expected(entries, count, num, stop)
    decreases |entries|
  {
    hide EntryOk, Recorded, Slot, Meaning;
    if entries != [] {
      var e := entries[0];
      RecordedOk(e);
      if !e.Other? {
        MeaningBack(e);
      }
      ExpectedBack(entries[1..], count + 1, num, stop);
      assert AllRecorded(entries)[1..] == AllRecorded(entries[1..]);
    }
  }

  /** A table laid out from entries decodes to what its slots say, in order. */
  lemma TableInverse(entries: seq<Entry>, padding: seq<Byte>, num: nat, stop: bool)
    requires (forall e | e in entries :: EntryOk(e)) && |padding| < 4
    ensures forall r | r in AllRecorded(entries) :: RecordOk(r)
    ensures Items(Table(AllRecorded(entries)) + padding, 0, 0, num, stop) == Expected(entries, 0, num, stop)
  {
    hide EntryOk, RecordOk, Table, Items, Slots, Expected, AllRecorded;
    AllRecordedOk(entries);
    RecordsBack(AllRecorded(entries), padding, num, stop);
    ExpectedBack(entries, 0, num, stop);
  }
}
