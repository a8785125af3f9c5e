/** Slot entries of an SMBIOS structure table, as dmi_phy_slots.c reads them. Section
    6.1.3 of DMTF DSP0134 describes the strings behind a structure, section 7.10 the
    system slot structure. */
module DmiTable {
  import opened ByteSeq

  /** What is recorded of a slot; fields that the structure is too short for stay zero. */
  datatype Item = Item(slot: seq<Byte>, domain: int, bus: int, dev: int, func: int)

  const NO_ITEM := Item([], 0, 0, 0, 0)

  const SYSTEM_SLOT := 9
  const END_OF_TABLE := 127
  const DOT := 46

  function Ascii(s: string): seq<Byte>
    requires forall i | 0 <= i < |s| :: (s[i] as int) < 0x100
  {
    seq(|s|, i requires 0 <= i < |s| => s[i] as int)
  }

  const NOT_SPECIFIED := Ascii("Not Specified")
  const BAD_INDEX := Ascii("<BAD INDEX>")

  /** Characters are signed: bytes from 128 on are negative, and filtered too. */
  function Printable(b: Byte): Byte {
    if b < 32 || b >= 127 then DOT else b
  }

  function Filtered(s: seq<Byte>): (r: seq<Byte>)
    ensures |r| == |s|
  {
    seq(|s|, i requires 0 <= i < |s| => Printable(s[i]))
  }

  /** Position of the first two zeros in a row from i on, or the end of the table. */
  function TwoZeros(buf: seq<Byte>, i: nat): (r: nat)
    ensures r == |buf| || (i <= r && r + 1 < |buf| && buf[r] == 0 && buf[r + 1] == 0)
    ensures forall j | i <= j < r && j + 1 < |buf| :: buf[j] != 0 || buf[j + 1] != 0
    decreases |buf| - i
  {
    if i + 1 >= |buf| then |buf| else if buf[i] == 0 && buf[i + 1] == 0 then i else TwoZeros(buf, i + 1)
  }

  /** Length of the string at i: there is a zero behind it. */
  function StrLen(buf: seq<Byte>, i: nat): (r: nat)
    requires exists z :: i <= z < |buf| && buf[z] == 0
    ensures i + r < |buf| && buf[i + r] == 0 && forall j | i <= j < i + r :: buf[j] != 0
    ensures forall z | i <= z < |buf| && buf[z] == 0 :: i + r <= z
    decreases |buf| - i
  {
    if buf[i] == 0 then 0 else 1 + StrLen(buf, i + 1)
  }

  /** String number s of those from i up to `end`, where two zeros stand. */
  function StringAt(buf: seq<Byte>, i: nat, end: nat, s: nat): seq<Byte>
    requires i <= end + 1 < |buf| && buf[end] == 0 && buf[end + 1] == 0
    decreases end + 1 - i
  {
    if s == 0 then NOT_SPECIFIED
    else if buf[i] == 0 then BAD_INDEX
    else
      var n := StrLen(buf, i);
      if s > 1 then StringAt(buf, i + n + 1, end, s - 1) else Filtered(buf[i..i + n])
  }

  /** The item of the slot structure at pos, whose strings end with two zeros at `end`. */
  function ItemAt(buf: seq<Byte>, pos: nat, end: nat): Item
    requires pos + 4 <= |buf| && pos + buf[pos + 1] <= end && end + 1 < |buf| && buf[end] == 0 && buf[end + 1] == 0
  {
    var length := buf[pos + 1];
    if length < 0x0c then NO_ITEM
    else
      var item := NO_ITEM.(slot := StringAt(buf, pos + length, end, buf[pos + 4]));
      if length < 0x11 then item
      else WithAddress(item, Word(buf[pos + 13], buf[pos + 14]), buf[pos + 15], buf[pos + 16])
  }

  function Word(low: Byte, high: Byte): int {
    (low as int) + 0x100 * (high as int)
  }

  /** Section 7.10.8: an address of all ones means that there is none. */
  function WithAddress(item: Item, code1: int, code2: Byte, code3: Byte): Item {
    if code1 == 0xffff && code2 == 0xff && code3 == 0xff then item
    else item.(domain := code1, bus := code2, dev := code3 / 8, func := code3 % 8)
  }

  /** One structure: where the next one begins, the item if it is a slot, and whether it
      ends the table. A structure that is too short, or does not fit, is broken. */
  datatype Structure = Broken | Structure(next: nat, items: seq<Item>, last: bool)

  function StructureAt(buf: seq<Byte>, pos: nat, stop: bool): (r: Structure)
    requires pos + 4 <= |buf|
    ensures r.Structure? ==> pos < r.next <= |buf|
  {
    if buf[pos + 1] < 4 then Broken
    else
      var end := TwoZeros(buf, pos + buf[pos + 1]);
      if end + 2 > |buf| then Broken
      else
        Structure(end + 2, if buf[pos] == SYSTEM_SLOT then [ItemAt(buf, pos, end)] else [],
                  buf[pos] == END_OF_TABLE && stop)
  }

  /** The items of the structures from pos on, `count` of `num` having been seen; 0 means
      that their number is not known. `stop` tells to stop at the end marker. */
  function Items(buf: seq<Byte>, pos: nat, count: nat, num: nat, stop: bool): seq<Item>
    requires pos <= |buf|
    decreases |buf| - pos
  {
    if !(count < num || num == 0) || pos + 4 > |buf| then []
    else
      var s := StructureAt(buf, pos, stop);
      if s.Broken? then [] else if s.last then s.items else s.items + Items(buf, s.next, count + 1, num, stop)
  }

  // ---------------------------------------------------- what was read does not matter

  /** From k on, the tables are the same. */
  ghost predicate SameFrom(a: seq<Byte>, b: seq<Byte>, k: nat) {
    |a| == |b| && forall i | k <= i < |a| :: a[i] == b[i]
  }

  lemma {:induction false} TwoZerosSame(a: seq<Byte>, b: seq<Byte>, i: nat)
    requires SameFrom(a, b, i)
    ensures TwoZeros(a, i) == TwoZeros(b, i)
    decreases |a| - i
  {
    if i + 1 < |a| {
      TwoZerosSame(a, b, i + 1);
    }
  }

  lemma {:induction false} StrLenSame(a: seq<Byte>, b: seq<Byte>, i: nat)
    requires SameFrom(a, b, i) && exists z :: i <= z < |a| && a[z] == 0
    ensures (exists z :: i <= z < |b| && b[z] == 0) && StrLen(a, i) == StrLen(b, i)
  {
    var z :| i <= z < |a| && a[z] == 0;
    assert b[z] == 0;
    var n, m := StrLen(a, i), StrLen(b, i);
    assert a[i + n] == 0 && b[i + m] == 0 && b[i + n] == 0 && a[i + m] == 0;
  }

  /** At a string: it is the one, or the search goes on behind its zero. */
  lemma StringAtFirst(buf: seq<Byte>, i: nat, end: nat, s: nat, n: nat)
    requires i <= end + 1 < |buf| && buf[end] == 0 && buf[end + 1] == 0 && s > 0
    requires i + n < |buf| && n > 0 && buf[i + n] == 0 && forall j | i <= j < i + n :: buf[j] != 0
    ensures i + n <= end
    ensures StringAt(buf, i, end, s)
         == if s > 1 then StringAt(buf, i + n + 1, end, s - 1) else Filtered(buf[i..i + n])
  {
    hide StrLen;
    assert StrLen(buf, i) == n;
  }

  lemma StringAtNone(buf: seq<Byte>, i: nat, end: nat, s: nat)
    requires i <= end + 1 < |buf| && buf[end] == 0 && buf[end + 1] == 0 && (s == 0 || buf[i] == 0)
    ensures StringAt(buf, i, end, s) == if s == 0 then NOT_SPECIFIED else BAD_INDEX
  {
  }

  lemma {:induction false} StringAtSame(a: seq<Byte>, b: seq<Byte>, i: nat, end: nat, s: nat)
    requires SameFrom(a, b, i) && i <= end + 1 < |a| && a[end] == 0 && a[end + 1] == 0
    requires b[end] == 0 && b[end + 1] == 0
    ensures StringAt(a, i, end, s) == StringAt(b, i, end, s)
    decreases end + 1 - i
  {
    hide StrLen, StringAt;
    if s == 0 || a[i] == 0 {
      StringAtNone(a, i, end, s);
      StringAtNone(b, i, end, s);
    } else {
      StrLenSame(a, b, i);
      var n := StrLen(a, i);
      StringAtFirst(a, i, end, s, n);
      StringAtFirst(b, i, end, s, n);
      if s > 1 {
        StringAtSame(a, b, i + n + 1, end, s - 1);
      } else {
        SliceSame(a, b, i, i + n);
      }
    }
  }

  lemma SliceSame(a: seq<Byte>, b: seq<Byte>, i: nat, k: nat)
    requires SameFrom(a, b, i) && i <= k <= |a|
    ensures a[i..k] == b[i..k]
  {
  }

  lemma ItemSame(a: seq<Byte>, b: seq<Byte>, pos: nat, end: nat)
    requires SameFrom(a, b, pos) && pos + 4 <= |a| && pos + a[pos + 1] <= end && end + 1 < |a| && a[end] == 0
    requires a[end + 1] == 0
    ensures b[end] == 0 && b[end + 1] == 0 && ItemAt(a, pos, end) == ItemAt(b, pos, end)
  {
    StringAtSame(a, b, pos + a[pos + 1], end, if pos + 4 < |a| then a[pos + 4] else 0);
    hide StringAt;
  }

  // -------------------------------------------------------------------- the decoder

  /** The bytes of the string area [lo, hi) that cannot be printed may have become dots. */
  ghost predicate Dotted(was: seq<Byte>, now: seq<Byte>, lo: nat, hi: nat) {
    && |was| == |now|
    && forall i | 0 <= i < |was| ::
         now[i] == was[i] || (lo <= i < hi && was[i] != 0 && now[i] == Printable(was[i]))
  }

  lemma FilteredSlice(was: seq<Byte>, now: seq<Byte>, bp: nat, len: nat)
    requires |was| == |now| && bp + len <= |was| && forall j | bp <= j < bp + len :: now[j] == Printable(was[j])
    ensures now[bp..bp + len] == Filtered(was[bp..bp + len])
  {
  }

  /** dmi_string: string number s behind a structure, filtered in place. */
  method DmiString(buf: array<Byte>, start: nat, ghost end: nat, s: nat) returns (text: seq<Byte>)
    requires start <= end && end + 1 < buf.Length && buf[end] == 0 && buf[end + 1] == 0
    modifies buf
    ensures text == StringAt(old(buf[..]), start, end, s)
    ensures Dotted(old(buf[..]), buf[..], start, end)
  {
    hide StrLen, StringAt, Filtered;
    ghost var was := buf[..];
    if s == 0 {
      StringAtNone(was, start, end, s);
      return NOT_SPECIFIED;
    }
    var bp, k := start, s;
    while k > 1 && buf[bp] != 0
      modifies {}
      invariant start <= bp <= end + 1 && 1 <= k && buf[..] == was
      invariant StringAt(was, start, end, s) == StringAt(was, bp, end, k)
      decreases k
    {
      var n := Strlen(buf, bp, end);
      StringAtFirst(was, bp, end, k, n);
      bp := bp + n + 1;
      k := k - 1;
    }
    if buf[bp] == 0 {
      StringAtNone(was, bp, end, k);
      return BAD_INDEX;
    }
    var len := Strlen(buf, bp, end);
    StringAtFirst(was, bp, end, k, len);
    FilterString(buf, bp, len);
    text := buf[bp..bp + len];
    FilteredSlice(was, buf[..], bp, len);
  }

  /** The filtering loop of dmi_string. */
  method FilterString(buf: array<Byte>, bp: nat, len: nat)
    requires bp + len <= buf.Length
    modifies buf
    ensures forall j | 0 <= j < buf.Length ::
              buf[j] == if bp <= j < bp + len then Printable(old(buf[j])) else old(buf[j])
  {
    var i := 0;
    while i < len
      invariant 0 <= i <= len
      invariant forall j | 0 <= j < buf.Length ::
                  buf[j] == if bp <= j < bp + i then Printable(old(buf[j])) else old(buf[j])
    {
      if buf[bp + i] < 32 || buf[bp + i] >= 127 {
        buf[bp + i] := DOT;
      }
      i := i + 1;
    }
  }

  method Strlen(buf: array<Byte>, i: nat, ghost end: nat) returns (n: nat)
    requires i <= end < buf.Length && buf[end] == 0
    ensures n == StrLen(buf[..], i) && i + n <= end
  {
    assert buf[..][end] == 0;
    n := 0;
    while buf[i + n] != 0
      invariant i + n <= end
      invariant forall j | i <= j < i + n :: buf[j] != 0
      decreases end - n
    {
      n := n + 1;
    }
    assert buf[..][i + n] == 0;
  }

  /** dmi_decode: the item of a slot structure. */
  method DmiDecode(buf: array<Byte>, pos: nat, ghost end: nat) returns (item: Item)
    requires pos + 4 <= buf.Length && pos + buf[pos + 1] <= end && end + 1 < buf.Length && buf[end] == 0
    requires buf[end + 1] == 0
    modifies buf
    ensures item == ItemAt(old(buf[..]), pos, end)
    ensures Dotted(old(buf[..]), buf[..], pos + old(buf[pos + 1]), end)
  {
    item := NO_ITEM;
    var length := buf[pos + 1];
    if length < 0x0c {
      return;
    }
    var slot := DmiString(buf, pos + length, end, buf[pos + 4]);
    item := item.(slot := slot);
    if length < 0x11 {
      return;
    }
    var code1, code2, code3 := Word(buf[pos + 13], buf[pos + 14]), buf[pos + 15], buf[pos + 16];
    if !(code1 == 0xffff && code2 == 0xff && code3 == 0xff) {
      item := item.(domain := code1, bus := code2, dev := code3 / 8, func := code3 % 8);
    }
  }

  lemma StructureSame(a: seq<Byte>, b: seq<Byte>, pos: nat, stop: bool)
    requires SameFrom(a, b, pos) && pos + 4 <= |a|
    ensures StructureAt(a, pos, stop) == StructureAt(b, pos, stop)
  {
    hide TwoZeros, ItemAt;
    TwoZerosSame(a, b, pos + a[pos + 1]);
    var end := TwoZeros(a, pos + a[pos + 1]);
    if end + 2 <= |a| {
      ItemSame(a, b, pos, end);
    }
  }

  /** One turn of the loop. */
  method TakeStructure(buf: array<Byte>, data: nat, stop: bool) returns (s: Structure)
    requires data + 4 <= buf.Length
    modifies buf
    ensures s == StructureAt(old(buf[..]), data, stop)
    ensures Dotted(old(buf[..]), buf[..], data, if s.Broken? then data else s.next)
  {
    hide TwoZeros, ItemAt, Printable;
    var length := buf[data + 1];
    if length < 4 {
      return Broken;
    }
    var next := FindTwoZeros(buf, data + length);
    ghost var end := next;
    next := next + 2;
    if next > buf.Length {
      return Broken;
    }
    var kind := buf[data];
    s := Structure(next, [], kind == END_OF_TABLE && stop);
    if kind == SYSTEM_SLOT {
      var item := DmiDecode(buf, data, end);
      s := s.(items := [item]);
    }
  }

  /** dmi_table_decode: the slots of a table, in order. Whatever the table holds, the walk
      stays inside it, and although it filters strings in place, the result is that of
      reading the table as it was. */
  method TableDecode(buf: array<Byte>, num: nat, stop: bool) returns (head: seq<Item>)
    modifies buf
    ensures head == Items(old(buf[..]), 0, 0, num, stop)
    ensures Dotted(old(buf[..]), buf[..], 0, buf.Length)
  {
    hide StructureAt, Printable, Dotted, SameFrom, Items;
    ghost var was := buf[..];
    DottedStart(was);
    head := [];
    var data, i := 0, 0;
    while (i < num || num == 0) && data + 4 <= buf.Length
      invariant data <= buf.Length && SameFrom(was, buf[..], data) && Dotted(was, buf[..], 0, data)
      invariant Dotted(was, buf[..], 0, |was|)
      invariant Items(was, 0, 0, num, stop) == head + Items(was, data, i, num, stop)
      decreases buf.Length - data
    {
      ghost var now := buf[..];
      StructureSame(was, now, data, stop);
      ItemsOn(was, data, i, num, stop, head);
      var s := TakeStructure(buf, data, stop);
      DottedOn(was, now, buf[..], data, data, if s.Broken? then data else s.next);
      if s.Broken? {
        return;
      }
      i := i + 1;
      head := head + s.items;
      data := s.next;
      if s.last {
        return;
      }
    }
    ItemsEnd(was, data, i, num, stop);
  }

  /** What a structure adds to the items before it. */
  lemma ItemsOn(buf: seq<Byte>, pos: nat, count: nat, num: nat, stop: bool, head: seq<Item>)
    requires pos + 4 <= |buf| && (count < num || num == 0)
    ensures var s := StructureAt(buf, pos, stop);
            head + Items(buf, pos, count, num, stop)
            == if s.Broken? then head
               else if s.last then head + s.items
               else head + s.items + Items(buf, s.next, count + 1, num, stop)
  {
    hide StructureAt;
    var s := StructureAt(buf, pos, stop);
    if !s.Broken? && !s.last {
      InThree(head, s.items, Items(buf, s.next, count + 1, num, stop));
    }
  }

  lemma InThree<T>(a: seq<T>, b: seq<T>, c: seq<T>)
    ensures a + (b + c) == a + b + c
  {
  }

  lemma ItemsEnd(buf: seq<Byte>, pos: nat, count: nat, num: nat, stop: bool)
    requires pos <= |buf| && (pos + 4 > |buf| || !(count < num || num == 0))
    ensures Items(buf, pos, count, num, stop) == []
  {
  }

  lemma DottedOn(was: seq<Byte>, a: seq<Byte>, b: seq<Byte>, data: nat, lo: nat, hi: nat)
    requires Dotted(was, a, 0, data) && SameFrom(was, a, data) && Dotted(a, b, lo, hi) && data <= lo <= hi
    ensures Dotted(was, b, 0, hi) && Dotted(was, b, 0, |was|) && SameFrom(was, b, hi)
  {
  }

  lemma DottedStart(was: seq<Byte>)
    ensures Dotted(was, was, 0, 0) && Dotted(was, was, 0, |was|) && SameFrom(was, was, 0)
  {
  }

  method FindTwoZeros(buf: array<Byte>, start: nat) returns (next: nat)
    ensures next + 2 > buf.Length ==> TwoZeros(buf[..], start) == buf.Length
    ensures next + 2 <= buf.Length ==> next == TwoZeros(buf[..], start)
  {
    next := start;
    while next + 1 < buf.Length && (buf[next] != 0 || buf[next + 1] != 0)
      invariant start <= next && TwoZeros(buf[..], start) == TwoZeros(buf[..], next)
    {
      next := next + 1;
    }
  }
}
