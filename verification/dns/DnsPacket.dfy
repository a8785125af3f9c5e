/** The DNS message walker of lib/names-net.c. Section 4.1 of RFC 1035 gives the layout:
    a header of 12 bytes with four counts, and as many sections of records. */
module DnsPacket {
  import opened Wrappers
  import opened ByteSeq

  const QUESTION := 0
  const SECTIONS := 4

  function Word(buf: seq<Byte>, p: nat): (r: nat)
    requires p + 2 <= |buf|
    ensures r < 0x1_0000
  {
    (buf[p] as int) * 0x100 + (buf[p + 1] as int)
  }

  /** Behind the name at p, in a message that ends at `end`. */
  function SkipName(buf: seq<Byte>, p: nat, end: nat): (r: Option<nat>)
    requires end <= |buf|
    ensures r.Some? ==> p < r.value <= end
    decreases end - p
  {
    if p >= end then None
    else if buf[p] == 0 then Some(p + 1)
    else if buf[p] < 0x40 then SkipName(buf, p + 1 + buf[p], end)
    else if buf[p] >= 0xc0 then if p + 2 < end then Some(p + 2) else None
    else None
  }

  /** A resource record: its fields, where its data begin, and how many there are. */
  datatype Record = Record(kind: nat, rclass: nat, ttl: nat, data: nat, len: nat) {
    /** Where the next record begins. */
    function Next(): nat {
      data + len
    }
  }

  /** The record at p, when its head lies within `end`. */
  function RecordAt(buf: seq<Byte>, p: nat, end: nat): (r: Option<Record>)
    requires end <= |buf|
    ensures r.Some? ==> p < r.value.data <= end
  {
    var q := SkipName(buf, p, end);
    if q.None? || q.value + 10 > end then None
    else
      var d := q.value;
      Some(Record(Word(buf, d), Word(buf, d + 2), Word(buf, d + 4) * 0x1_0000 + Word(buf, d + 6), d + 10,
                  Word(buf, d + 8)))
  }

  /** What a record that breaks off leaves of an earlier one: each field that lies in front
      of `end`, with its head from q on, has been read. */
  function Broken(buf: seq<Byte>, q: Option<nat>, end: nat, r: Record): Record
    requires end <= |buf|
  {
    if q.None? then r
    else
      var p := q.value;
      Record(if p + 2 <= end then Word(buf, p) else r.kind,
             if p + 4 <= end then Word(buf, p + 2) else r.rclass,
             if p + 8 <= end then Word(buf, p + 4) * 0x1_0000 + Word(buf, p + 6) else r.ttl,
             r.data, r.len)
  }

  /** Behind the question at p. */
  function QuestionAt(buf: seq<Byte>, p: nat, end: nat): (r: Option<nat>)
    requires end <= |buf|
    ensures r.Some? ==> p < r.value <= end
  {
    var q := SkipName(buf, p, end);
    if q.None? || q.value + 4 > end then None else Some(q.value + 4)
  }

  /** Behind one entry of a section. */
  function EntryAt(buf: seq<Byte>, section: nat, p: nat): (r: Option<nat>)
    ensures r.Some? ==> p < r.value <= |buf|
  {
    if section == QUESTION then QuestionAt(buf, p, |buf|)
    else
      var r := RecordAt(buf, p, |buf|);
      if r.None? || r.value.Next() > |buf| then None else Some(r.value.Next())
  }

  /** Behind `count` entries. */
  function SectionAt(buf: seq<Byte>, section: nat, p: nat, count: nat): (r: Option<nat>)
    requires p <= |buf|
    ensures r.Some? ==> p <= r.value <= |buf|
    decreases count
  {
    if count == 0 then Some(p)
    else
      var q := EntryAt(buf, section, p);
      if q.None? then None else SectionAt(buf, section, q.value, count - 1)
  }

  /** Number of entries in a section, from the header. */
  function Count(buf: seq<Byte>, section: nat): (r: nat)
    requires 12 <= |buf| && section < SECTIONS
  {
    Word(buf, 4 + 2 * section)
  }

  /** Where section number i begins; after the last, where the message ends. */
  function SectionStart(buf: seq<Byte>, i: nat): (r: Option<nat>)
    requires 12 <= |buf| && i <= SECTIONS
    ensures r.Some? ==> 12 <= r.value <= |buf|
  {
    if i == 0 then Some(12)
    else
      var p := SectionStart(buf, i - 1);
      if p.None? then None else SectionAt(buf, i - 1, p.value, Count(buf, i - 1))
  }

  /** The message is well-formed. */
  predicate WellFormed(buf: seq<Byte>) {
    12 <= |buf| && SectionStart(buf, SECTIONS).Some?
  }

  lemma {:induction false} StartsNone(buf: seq<Byte>, i: nat, n: nat)
    requires 12 <= |buf| && i <= n <= SECTIONS && SectionStart(buf, i) == None
    ensures SectionStart(buf, n) == None
    decreases n
  {
    if i < n {
      StartsNone(buf, i, n - 1);
    }
  }

  // ---------------------------------------------------------- agreement of two readers

  /** The records of a section, as the message holds them. */
  function Records(buf: seq<Byte>, section: nat, p: nat, count: nat): (r: seq<Record>)
    requires section != QUESTION && p <= |buf| && SectionAt(buf, section, p, count).Some?
    ensures |r| == count
    decreases count
  {
    if count == 0 then []
    else [RecordAt(buf, p, |buf|).value] + Records(buf, section, EntryAt(buf, section, p).value, count - 1)
  }

  /** A name that ends before another end is the same with that end. */
  lemma {:induction false} NameWithin(buf: seq<Byte>, p: nat, end: nat, end': nat)
    requires end' <= end <= |buf| && SkipName(buf, p, end).Some? && SkipName(buf, p, end).value < end'
    ensures SkipName(buf, p, end') == SkipName(buf, p, end)
    decreases end - p
  {
    if 0 < buf[p] < 0x40 {
      NameWithin(buf, p + 1 + buf[p], end, end');
    }
  }

  /** A record is the same whether it is read up to the end of its section or of the message. */
  lemma RecordWithin(buf: seq<Byte>, section: nat, p: nat, end: nat)
    requires section != QUESTION && EntryAt(buf, section, p).Some? && EntryAt(buf, section, p).value <= end <= |buf|
    ensures RecordAt(buf, p, end) == RecordAt(buf, p, |buf|)
  {
    NameWithin(buf, p, |buf|, end);
  }

  /** The data of every record of a section lie inside it. */
  lemma {:induction false} DataInside(buf: seq<Byte>, section: nat, p: nat, count: nat)
    requires section != QUESTION && p <= |buf| && SectionAt(buf, section, p, count).Some?
    ensures forall r | r in Records(buf, section, p, count) ::
              p < r.data && r.Next() <= SectionAt(buf, section, p, count).value
    decreases count
  {
    if count > 0 {
      DataInside(buf, section, EntryAt(buf, section, p).value, count - 1);
    }
  }

  // --------------------------------------------------------------------- the walker

  class State {
    const packet: array<Byte>
    var counts: seq<nat>
    var sections: seq<nat>
    var secPtr: nat
    var secEnd: nat
    var rr: Record

    constructor (packet: array<Byte>)
      ensures this.packet == packet && counts == [] && sections == []
    {
      this.packet := packet;
      counts, sections, secPtr, secEnd, rr := [], [], 0, 0, Record(0, 0, 0, 0, 0);
    }

    /** The packet has been accepted: counts and sections are those of the message. */
    ghost predicate Parsed()
      reads this, packet
    {
      && WellFormed(packet[..])
      && |counts| == SECTIONS && (forall i | 0 <= i < SECTIONS :: counts[i] == Count(packet[..], i))
      && |sections| == SECTIONS + 1
      && (forall i | 0 <= i <= SECTIONS :: SectionStart(packet[..], i) == Some(sections[i]))
    }

    method DnsSkipName(start: nat, end: nat) returns (r: Option<nat>)
      requires end <= packet.Length
      ensures r == SkipName(packet[..], start, end)
    {
      var p := start;
      while p < end
        invariant SkipName(packet[..], start, end) == SkipName(packet[..], p, end)
      {
        var x := packet[p];
        p := p + 1;
        if x == 0 {
          return Some(p);
        }
        if x < 0x40 {
          p := p + x;
        } else if x >= 0xc0 {
          p := p + 1;
          return if p < end then Some(p) else None;
        } else {
          return None;
        }
      }
      return None;
    }

    /** Accepts a packet exactly when it is well-formed, and notes where its sections begin. */
    method ParsePacket() returns (ok: bool)
      modifies this
      ensures ok == WellFormed(packet[..])
      ensures ok ==> Parsed()
    {
      var end := packet.Length;
      ghost var buf := packet[..];
      if 4 > end {
        return false;
      }
      var p := 4;
      counts := [];
      var i := 0;
      while i < SECTIONS
        invariant 0 <= i <= SECTIONS && p == 4 + 2 * i <= end && |counts| == i
        invariant forall j | 0 <= j < i :: counts[j] == Word(buf, 4 + 2 * j)
      {
        if p + 2 > end {
          return false;
        }
        counts := counts + [Word(packet[..], p)];
        p := p + 2;
        i := i + 1;
      }
      sections := [];
      i := 0;
      while i < SECTIONS
        modifies `sections
        invariant 0 <= i <= SECTIONS && |sections| == i && p <= end
        invariant forall j | 0 <= j < i :: SectionStart(buf, j) == Some(sections[j])
        invariant SectionStart(buf, i) == Some(p)
      {
        sections := sections + [p];
        var q := ParseSection(i, p, counts[i]);
        if q.None? {
          StartsNone(buf, i + 1, SECTIONS);
          return false;
        }
        p := q.value;
        i := i + 1;
      }
      sections := sections + [p];
      return true;
    }

    /** The inner loop: the entries of one section. */
    method ParseSection(i: nat, start: nat, count: nat) returns (r: Option<nat>)
      requires start <= packet.Length
      ensures r == SectionAt(packet[..], i, start, count)
    {
      hide Word, SectionAt;
      var end := packet.Length;
      var p: nat, j: nat := start, 0;
      while j < count
        invariant 0 <= j <= count && p <= end
        invariant SectionAt(packet[..], i, start, count) == SectionAt(packet[..], i, p, count - j)
      {
        SectionOn(packet[..], i, p, count - j);
        var q := DnsSkipName(p, end);
        if q.None? {
          return None;
        }
        if q.value + 4 > end {
          return None;
        }
        if i != QUESTION {
          if q.value + 10 > end {
            return None;
          }
          p := q.value + 10 + Word(packet[..], q.value + 8);
          if p > end {
            return None;
          }
        } else {
          p := q.value + 4;
        }
        j := j + 1;
      }
      NoMore(packet[..], i, p);
      return Some(p);
    }

    method InitSection(i: nat)
      requires i + 1 < |sections|
      modifies `secPtr, `secEnd
      ensures secPtr == sections[i] && secEnd == sections[i + 1]
    {
      secPtr := sections[i];
      secEnd := sections[i + 1];
    }

    /** The next record of the section: 1, or 0 at its end, or -1 if there is none. */
    method ParseRr() returns (code: int)
      requires secEnd <= packet.Length
      modifies `secPtr, `rr
      ensures code
           == if old(secPtr) == secEnd then 0
              else if RecordAt(packet[..], old(secPtr), secEnd).Some? then 1 else -1
      ensures code == 1 ==> rr == RecordAt(packet[..], old(secPtr), secEnd).value && secPtr == rr.Next()
      ensures code != 1 ==> secPtr == old(secPtr)
      ensures code == 0 ==> rr == old(rr)
      ensures code == -1 ==> rr == Broken(packet[..], SkipName(packet[..], secPtr, secEnd), secEnd, old(rr))
    {
      var end := secEnd;
      if secPtr == end {
        return 0;
      }
      var q := DnsSkipName(secPtr, end);
      if q.None? {
        return -1;
      }
      var p := q.value;
      if p + 2 > end {
        return -1;
      }
      rr := rr.(kind := Word(packet[..], p));
      if p + 4 > end {
        return -1;
      }
      rr := rr.(rclass := Word(packet[..], p + 2));
      if p + 8 > end {
        return -1;
      }
      rr := rr.(ttl := Word(packet[..], p + 4) * 0x1_0000 + Word(packet[..], p + 6));
      if p + 10 > end {
        return -1;
      }
      rr := rr.(len := Word(packet[..], p + 8), data := p + 10);
      secPtr := rr.data + rr.len;
      return 1;
    }

    /** Reads a section of an accepted packet: as many records as the header says, each with
        its data inside the section, up to the end of the section, without an error. */
    method ReadSection(i: nat) returns (records: seq<Record>, code: int)
      requires Parsed() && 0 < i < SECTIONS
      modifies `secPtr, `secEnd, `rr
      ensures code == 0 && secPtr == secEnd == sections[i + 1] && |records| == counts[i]
      ensures SectionAt(packet[..], i, sections[i], counts[i]) == Some(sections[i + 1])
      ensures records == Records(packet[..], i, sections[i], counts[i])
      ensures forall r | r in records :: sections[i] < r.data && r.Next() <= sections[i + 1]
    {
      ghost var buf, start, count := packet[..], sections[i], counts[i];
      assert SectionStart(buf, i + 1) == Some(sections[i + 1]) && SectionStart(buf, i) == Some(start);
      assert SectionAt(buf, i, start, count) == Some(sections[i + 1]);
      DataInside(buf, i, start, count);
      hide RecordAt, EntryAt, SectionStart, Records, SectionAt, WellFormed, Count;
      InitSection(i);
      records, code := ReadOn(i, count);
    }

    /** The loop over the records of a section. */
    method ReadOn(ghost section: nat, ghost count: nat) returns (records: seq<Record>, code: int)
      requires section != QUESTION && secPtr <= secEnd <= packet.Length
      requires SectionAt(packet[..], section, secPtr, count) == Some(secEnd)
      modifies `secPtr, `rr
      ensures code == 0 && secPtr == secEnd
      ensures old(secPtr) <= packet.Length && SectionAt(packet[..], section, old(secPtr), count).Some?
      ensures records == Records(packet[..], section, old(secPtr), count)
    {
      hide RecordAt, EntryAt;
      ghost var buf, start, left := packet[..], secPtr, count;
      records := [];
      code := 1;
      while code > 0
        invariant 0 <= code <= 1 && secPtr <= secEnd
        invariant SectionAt(buf, section, secPtr, left) == Some(secEnd)
        invariant Records(buf, section, start, count) == records + Records(buf, section, secPtr, left)
        invariant code == 0 ==> left == 0
        decreases code, left
      {
        NextOf(buf, section, secPtr, left, secEnd);
        code := ParseRr();
        if code > 0 {
          assert records + ([rr] + Records(buf, section, secPtr, left - 1))
                 == records + [rr] + Records(buf, section, secPtr, left - 1);
          records := records + [rr];
          left := left - 1;
        }
      }
    }
  }

  lemma SectionOn(buf: seq<Byte>, section: nat, p: nat, count: nat)
    requires p <= |buf| && count > 0
    ensures SectionAt(buf, section, p, count)
         == var q := EntryAt(buf, section, p);
            if q.None? then None else SectionAt(buf, section, q.value, count - 1)
  {
    hide EntryAt;
  }

  lemma NoMore(buf: seq<Byte>, section: nat, p: nat)
    requires p <= |buf|
    ensures SectionAt(buf, section, p, 0) == Some(p)
  {
  }

  /** The next record of a section, if any is left. */
  lemma NextOf(buf: seq<Byte>, section: nat, p: nat, left: nat, end: nat)
    requires section != QUESTION && p <= end <= |buf| && SectionAt(buf, section, p, left) == Some(end)
    ensures left == 0 <==> p == end
    ensures left > 0 ==>
              && EntryAt(buf, section, p).Some?
              && RecordAt(buf, p, end).Some? && RecordAt(buf, p, end) == RecordAt(buf, p, |buf|)
              && EntryAt(buf, section, p) == Some(RecordAt(buf, p, end).value.Next())
              && RecordAt(buf, p, end).value.Next() <= end
  {
    if left > 0 {
      RecordWithin(buf, section, p, end);
    }
  }
}
