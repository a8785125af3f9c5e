/** Printing bus dumps, lspcie.c, and reading them back. */
module DumpInverse {
  import opened Wrappers
  import opened ByteSeq
  import opened Hex
  import opened DumpFile
  import opened DumpReader

  // ----------------------------------------------------------------------- printing

  /** At least two hexadecimal digits. */
  function Offset(i: nat): string
    requires i < LONG
  {
    HexText(i, if i < 0x100 then 2 else 3)
  }

  /** The bytes of a row, each behind a blank. */
  function RowText(bytes: seq<Byte>): string {
    if bytes == [] then "" else RowText(bytes[..|bytes| - 1]) + " " + HexText(bytes[|bytes| - 1], 2)
  }

  /** Each byte takes three places: a blank, and its digits. */
  lemma {:induction false} RowPlaces(bytes: seq<Byte>, j: nat)
    requires j < |bytes|
    ensures |RowText(bytes)| == 3 * |bytes| && RowText(bytes)[3 * j] == ' '
    ensures RowText(bytes)[3 * j + 1] == HexDigit(bytes[j] as int / 16)
    ensures RowText(bytes)[3 * j + 2] == HexDigit(bytes[j] as int % 16)
  {
    var k := |bytes| - 1;
    var init, b := bytes[..k], bytes[k];
    hide HexText, HexDigit;
    RowTextPlain(init);
    ByteText(b);
    if j < k {
      RowPlaces(init, j);
      assert RowText(bytes)[..3 * k] == RowText(init);
    }
  }

  lemma ByteText(b: Byte)
    ensures HexText(b, 2) == [HexDigit(b as int / 16), HexDigit(b as int % 16)]
  {
    assert HexText(b as int / 16, 1) == HexText(0, 0) + [HexDigit(b as int / 16)];
  }

  /** Rows of sixteen bytes, the first of them being number i. */
  function Rows(bytes: seq<Byte>, i: nat): seq<string>
    requires |bytes| % 16 == 0 && i + |bytes| <= LONG
    decreases |bytes|
  {
    if bytes == [] then [] else [Offset(i) + ":" + RowText(bytes[..16])] + Rows(bytes[16..], i + 16)
  }

  function Joined(lines: seq<string>): string {
    if lines == [] then "" else lines[0] + "\n" + Joined(lines[1..])
  }

  /** What show_hex_dump has printed of the first n bytes. */
  function Printed(bytes: seq<Byte>, n: nat): string
    requires n <= |bytes| <= LONG
  {
    if n == 0 then ""
    else
      var i := n - 1;
      Printed(bytes, i)
        + (if i % 16 == 0 then Offset(i) + ":" else "")
        + (" " + HexText(bytes[i], 2))
        + (if i % 16 == 15 then "\n" else "")
  }

  lemma JoinedAppend(a: seq<string>, b: seq<string>)
    ensures Joined(a + b) == Joined(a) + Joined(b)
  {
    if a == [] {
      assert a + b == b;
    } else {
      assert (a + b)[1..] == a[1..] + b;
      JoinedAppend(a[1..], b);
    }
  }

  /** The row at i as far as it has been printed. */
  function Row(i: nat, bytes: seq<Byte>): string
    requires i < LONG
  {
    Offset(i) + ":" + RowText(bytes) + if |bytes| == 16 then "\n" else ""
  }

  /** One row of the loop. */
  lemma {:induction false} PrintedRow(bytes: seq<Byte>, i: nat, k: nat)
    requires i % 16 == 0 && 0 < k <= 16 && i + k <= |bytes| <= LONG
    ensures Printed(bytes, i + k) == Printed(bytes, i) + Row(i, bytes[i..i + k])
    decreases k
  {
    hide Offset, HexText, RowText, Printed, Row;
    var row := bytes[i..i + k];
    if k == 1 {
      PrintedFirst(bytes, i);
      assert row == [bytes[i]];
    } else {
      PrintedRow(bytes, i, k - 1);
      PrintedNext(bytes, i, k);
      RowSnoc(i, row[..k - 1], row[k - 1]);
      assert row[..k - 1] == bytes[i..i + k - 1] && row[..k - 1] + [row[k - 1]] == row;
    }
  }

  /** The first byte of a row. */
  lemma PrintedFirst(bytes: seq<Byte>, i: nat)
    requires i % 16 == 0 && i < |bytes| <= LONG
    ensures Printed(bytes, i + 1) == Printed(bytes, i) + Row(i, [bytes[i]])
  {
    hide Offset, HexText, RowText;
    RowOne(bytes[i]);
    assert Printed(bytes, i + 1) == Printed(bytes, i) + (Offset(i) + ":") + (" " + HexText(bytes[i], 2)) + "";
  }

  /** A byte inside a row. */
  lemma PrintedNext(bytes: seq<Byte>, i: nat, k: nat)
    requires i % 16 == 0 && 1 < k <= 16 && i + k <= |bytes| <= LONG
    ensures Printed(bytes, i + k)
         == Printed(bytes, i + k - 1) + (" " + HexText(bytes[i + k - 1], 2)) + if k == 16 then "\n" else ""
  {
    hide Offset, HexText;
    var n := i + k - 1;
    assert n % 16 == k - 1;
    var end := if n % 16 == 15 then "\n" else "";
    assert Printed(bytes, i + k) == Printed(bytes, n) + "" + (" " + HexText(bytes[n], 2)) + end;
  }

  lemma RowOne(b: Byte)
    ensures RowText([b]) == " " + HexText(b, 2)
  {
    assert RowText([b][..0]) == "";
  }

  lemma RowSnoc(i: nat, row: seq<Byte>, b: Byte)
    requires i < LONG && 0 < |row| < 16
    ensures Row(i, row + [b]) == Row(i, row) + (" " + HexText(b, 2)) + if |row| == 15 then "\n" else ""
  {
    hide Offset, HexText;
    assert (row + [b])[..|row|] == row;
  }

  /** The loop prints the rows, line by line. */
  lemma {:induction false} PrintedIsRows(bytes: seq<Byte>, i: nat)
    requires |bytes| % 16 == 0 && i % 16 == 0 && i <= |bytes| <= LONG
    ensures Printed(bytes, |bytes|) == Printed(bytes, i) + Joined(Rows(bytes[i..], i))
    decreases |bytes| - i
  {
    hide Offset, HexText, Printed, RowText;
    if i == |bytes| {
      assert bytes[i..] == [];
    } else {
      PrintedRow(bytes, i, 16);
      PrintedIsRows(bytes, i + 16);
      RowsHead(bytes[i..], i);
      assert bytes[i..][..16] == bytes[i..i + 16] && bytes[i..][16..] == bytes[i + 16..];
    }
  }

  lemma RowsHead(bytes: seq<Byte>, i: nat)
    requires |bytes| % 16 == 0 && bytes != [] && i + |bytes| <= LONG
    ensures Joined(Rows(bytes, i)) == Row(i, bytes[..16]) + Joined(Rows(bytes[16..], i + 16))
  {
    hide Offset, HexText, RowText;
    var rows := Rows(bytes, i);
    assert rows[0] == Offset(i) + ":" + RowText(bytes[..16]) && rows[1..] == Rows(bytes[16..], i + 16);
  }

  // ------------------------------------------------------------------- reading back

  /** A buffer that has been given exactly these bytes, from the first on. */
  function Image(addr: Address, bytes: seq<Byte>): (r: Dev)
    requires |bytes| <= LONG
    ensures DevOk(r) && r.len == |bytes| && r.data[..r.len] == bytes
  {
    Dev(addr, bytes + Blank((if |bytes| <= SHORT then SHORT else LONG) - |bytes|), |bytes|)
  }

  /** One more byte, also across the exchange of the buffer. */
  lemma StoreNext(addr: Address, bytes: seq<Byte>, b: Byte)
    requires |bytes| < LONG
    ensures Store(Image(addr, bytes), |bytes|, b) == Image(addr, bytes + [b])
  {
    var d, n := Image(addr, bytes), Image(addr, bytes + [b]);
    if |bytes| == SHORT {
      assert d.data[..SHORT] == bytes;
    }
    assert Store(d, |bytes|, b).data == n.data;
  }

  /** The bytes of a row, as they follow its first blank. */
  function Tail(bytes: seq<Byte>): string {
    if bytes == [] then "" else HexText(bytes[0], 2) + (if |bytes| == 1 then "" else " " + Tail(bytes[1..]))
  }

  lemma {:induction false} RowIsTail(bytes: seq<Byte>)
    requires bytes != []
    ensures RowText(bytes) == " " + Tail(bytes)
    decreases |bytes|
  {
    var init, last := bytes[..|bytes| - 1], bytes[|bytes| - 1];
    if init == [] {
      assert bytes == [last];
    } else {
      RowIsTail(init);
      TailSnoc(init, last);
      assert bytes == init + [last];
    }
  }

  lemma {:induction false} TailSnoc(bytes: seq<Byte>, b: Byte)
    requires bytes != []
    ensures Tail(bytes + [b]) == Tail(bytes) + " " + HexText(b, 2)
    decreases |bytes|
  {
    if |bytes| > 1 {
      assert (bytes + [b])[1..] == bytes[1..] + [b];
      TailSnoc(bytes[1..], b);
    } else {
      assert (bytes + [b])[1..] == [b] && Tail([b]) == HexText(b, 2);
    }
  }

  /** The bytes of a row go behind those that are there. */
  lemma {:induction false} RowBack(addr: Address, had: seq<Byte>, bytes: seq<Byte>, line: string, z: nat)
    requires |had| + |bytes| <= LONG && NUL !in line && z <= |line| && line[z..] == Tail(bytes)
    ensures ReadRow(Image(addr, had), |had|, line, z) == Stored(Image(addr, had + bytes))
    decreases |bytes|
  {
    if bytes == [] {
      assert Tail(bytes) == "" && had + bytes == had;
    } else {
      ByteBack(line, z, bytes);
      StoreNext(addr, had, bytes[0]);
      assert had + bytes == had + [bytes[0]] + bytes[1..];
      RowBack(addr, had + [bytes[0]], bytes[1..], line, if z + 2 < |line| then z + 3 else z + 2);
    }
  }

  lemma ByteBack(line: string, z: nat, bytes: seq<Byte>)
    requires bytes != [] && z <= |line| && line[z..] == Tail(bytes)
    ensures ByteAt(line, z) && HexAt(line, z, 2) == bytes[0]
    ensures var z' := if z + 2 < |line| then z + 3 else z + 2; z' <= |line| && line[z'..] == Tail(bytes[1..])
  {
    var t := HexText(bytes[0], 2);
    HexClean(bytes[0], 2);
    assert line[z..z + 2] == line[z..][..2] == t;
    assert Pow16(2) == 0x100;
    HexBack(line, z, bytes[0], 2);
    DigitsThere(line, z);
    if |bytes| > 1 {
      assert line[z + 2] == line[z..][2] == ' ';
      assert line[z + 3..] == line[z..][3..];
    } else {
      assert line[z + 2..] == line[z..][2..] == "";
    }
  }

  lemma DigitsThere(line: string, z: nat)
    requires HexAt(line, z, 2) >= 0
    ensures Digit(At(line, z)) >= 0 && Digit(At(line, z + 1)) >= 0
  {
    assert HexAt(line, z, 1) >= 0;
  }

  /** A device as it is printed: with its domain or without, and some description. */
  datatype Source = Source(addr: Address, long: bool, text: string, bytes: seq<Byte>)

  predicate SourceOk(p: Source) {
    && 0 <= p.addr.domain < 0x1_0000 && 0 <= p.addr.bus < 0x100 && 0 <= p.addr.dev < 0x100 && 0 <= p.addr.func < 10
    && (p.long || p.addr.domain == 0)
    && NUL !in p.text && '\n' !in p.text && '\r' !in p.text
    && |p.bytes| % 16 == 0 && |p.bytes| <= 4096
  }

  /** The slot name. */
  function SlotName(a: Address): string
    requires 0 <= a.bus < 0x100 && 0 <= a.dev < 0x100 && 0 <= a.func < 10
  {
    HexText(a.bus, 2) + ":" + HexText(a.dev, 2) + "." + HexText(a.func, 1)
  }

  function SlotText(p: Source): string
    requires SourceOk(p)
  {
    (if p.long then HexText(p.addr.domain, 4) + ":" else "") + SlotName(p.addr) + " " + p.text
  }

  /** The line of the slot fits the buffer of the reader. */
  predicate Fits(p: Source)
    requires SourceOk(p)
  {
    |SlotText(p)| < 254
  }

  function SourceLines(p: Source): seq<string>
    requires SourceOk(p)
  {
    [SlotText(p)] + Rows(p.bytes, 0) + [""]
  }

  predicate AllOk(ps: seq<Source>) {
    ps == [] || (SourceOk(ps[0]) && AllOk(ps[1..]))
  }

  predicate AllFit(ps: seq<Source>)
    requires AllOk(ps)
  {
    ps == [] || (Fits(ps[0]) && AllFit(ps[1..]))
  }

  function AllLines(ps: seq<Source>): seq<string>
    requires AllOk(ps)
  {
    if ps == [] then [] else SourceLines(ps[0]) + AllLines(ps[1..])
  }

  /** The devices of the sources in front of those that are there. */
  function Onto(ps: seq<Source>, devs: seq<Dev>): seq<Dev>
    requires AllOk(ps)
    decreases |ps|
  {
    if ps == [] then devs else Onto(ps[1..], [Image(ps[0].addr, ps[0].bytes)] + devs)
  }

  /** Digits stand where they have been printed. */
  lemma DigitsBack(line: string, i: nat, v: nat, digits: nat)
    requires i + digits <= |line| && line[i..i + digits] == HexText(v, digits) && v < Pow16(digits)
    ensures HexAt(line, i, digits) == v && forall k | i <= k < i + digits :: Digit(At(line, k)) >= 0
  {
    HexBack(line, i, v, digits);
    AllDigits(line, i, digits);
  }

  lemma {:induction false} AllDigits(line: string, i: nat, digits: nat)
    requires HexAt(line, i, digits) >= 0
    ensures forall k | i <= k < i + digits :: Digit(At(line, k)) >= 0
    decreases digits
  {
    if digits > 0 {
      AllDigits(line, i, digits - 1);
    }
  }

  lemma Sixteens()
    ensures Pow16(1) == 16 && Pow16(2) == 0x100 && Pow16(3) == 0x1000 && Pow16(4) == 0x1_0000
  {
    assert Pow16(1) == 16 * Pow16(0) && Pow16(2) == 16 * Pow16(1) && Pow16(3) == 16 * Pow16(2);
  }

  /** A slot name is read back wherever it begins. */
  lemma NameBack(line: string, i: nat, a: Address, rest: string)
    requires 0 <= a.bus < 0x100 && 0 <= a.dev < 0x100 && 0 <= a.func < 10
    requires i <= |line| && line[i..] == SlotName(a) + " " + rest
    ensures HexAt(line, i, 2) == a.bus && HexAt(line, i + 3, 2) == a.dev && Digit(At(line, i + 6)) == a.func
    ensures Decimal(At(line, i + 6)) && At(line, i + 2) == ':' && At(line, i + 5) == '.' && At(line, i + 7) == ' '
    ensures forall k | i <= k < i + 2 || i + 3 <= k < i + 5 || k == i + 6 :: Digit(At(line, k)) >= 0
  {
    hide HexText, HexAt, Digit, HexDigit, Pow16;
    Sixteens();
    OneDigit(a.func);
    var t := line[i..];
    assert t[..2] == HexText(a.bus, 2) && t[3..5] == HexText(a.dev, 2) && t[6..7] == HexText(a.func, 1);
    assert t[2] == ':' && t[5] == '.' && t[7] == ' ';
    assert line[i..i + 2] == t[..2] && line[i + 3..i + 5] == t[3..5] && line[i + 6..i + 7] == t[6..7];
    assert line[i + 2] == t[2] && line[i + 5] == t[5] && line[i + 7] == t[7];
    DigitsBack(line, i, a.bus, 2);
    DigitsBack(line, i + 3, a.dev, 2);
    assert line[i + 6] == t[6] == t[6..7][0];
  }

  lemma OneDigit(func: nat)
    requires func < 10
    ensures var c := HexText(func, 1)[0]; Decimal(c) && Digit(c) == func
  {
  }

  lemma SlotBack(p: Source)
    requires SourceOk(p)
    ensures SlotLine(SlotText(p)) == Some(p.addr)
  {
    var line := SlotText(p);
    if p.long {
      Sixteens();
      var d := HexText(p.addr.domain, 4);
      assert line[..4] == d && line[4] == ':' && line[5..] == SlotName(p.addr) + " " + p.text;
      DigitsBack(line, 0, p.addr.domain, 4);
      NameBack(line, 5, p.addr, p.text);
      hide HexAt, Digit;
      LongValid(line);
    } else {
      assert line[0..] == SlotName(p.addr) + " " + p.text;
      NameBack(line, 0, p.addr, p.text);
      hide HexAt, Digit;
      ShortValid(line);
    }
  }

  lemma ShortValid(line: string)
    requires forall k | 0 <= k < 2 || 3 <= k < 5 || k == 6 :: Digit(At(line, k)) >= 0
    requires At(line, 2) == ':' && At(line, 5) == '.' && At(line, 7) == ' '
    ensures Valid(line, SLOT)
  {
    assert |SLOT| == 8;
  }

  lemma LongValid(line: string)
    requires forall k | 0 <= k < 4 || 5 <= k < 7 || 8 <= k < 10 || k == 11 :: Digit(At(line, k)) >= 0
    requires At(line, 4) == ':' && At(line, 7) == ':' && At(line, 10) == '.' && At(line, 12) == ' '
    ensures Valid(line, LONG_SLOT) && !Valid(line, SLOT)
  {
    assert |LONG_SLOT| == 13;
    assert SLOT[2] == ':' && Digit(':') < 0;
  }

  /** A row is read back as a row. */
  lemma RowLineBack(i: nat, bytes: seq<Byte>)
    requires i < LONG && bytes != []
    ensures var line := Offset(i) + ":" + RowText(bytes);
            && SlotLine(line) == None && line != "" && RowLine(line) == Some((i, |Offset(i)| + 2))
            && |Offset(i)| + 2 <= |line| && line[|Offset(i)| + 2..] == Tail(bytes)
  {
    hide Digit, HexAt, HexText, Tail, RowText, Valid, SlotLine, RowLine;
    var o := Offset(i);
    var line := o + ":" + RowText(bytes);
    Sixteens();
    RowIsTail(bytes);
    LineParts(o, Tail(bytes));
    DigitsBack(line, 0, i, |o|);
    RowLineIs(line, i, |o|);
  }

  lemma LineParts(o: string, x: string)
    ensures var line, n := o + ":" + (" " + x), |o|;
            && n + 2 <= |line| && line[0..n] == o && line[n] == ':' && line[n + 1] == ' ' && line[n + 2..] == x
  {
  }

  lemma RowLineIs(line: string, i: nat, n: nat)
    requires (n == 2 || n == 3) && n + 2 <= |line| && line[n] == ':' && line[n + 1] == ' '
    requires HexAt(line, 0, n) == i && forall k | 0 <= k < n :: Digit(At(line, k)) >= 0
    ensures SlotLine(line) == None && RowLine(line) == Some((i, n + 2))
  {
    hide HexAt, Digit, Valid;
    if n == 2 {
      ShortRow(line);
    } else {
      LongRow(line);
    }
  }

  lemma ShortRow(line: string)
    requires Digit(At(line, 0)) >= 0 && Digit(At(line, 1)) >= 0 && At(line, 2) == ':' && At(line, 3) == ' '
    ensures Valid(line, ROW) && !Valid(line, SLOT) && !Valid(line, LONG_SLOT)
  {
    assert |ROW| == 4;
    assert SLOT[3] == '#' && Digit(' ') < 0;
    assert LONG_SLOT[2] == '#' && Digit(':') < 0;
  }

  lemma LongRow(line: string)
    requires Digit(At(line, 0)) >= 0 && Digit(At(line, 1)) >= 0 && Digit(At(line, 2)) >= 0
    requires At(line, 3) == ':' && At(line, 4) == ' '
    ensures Valid(line, LONG_ROW) && !Valid(line, ROW) && !Valid(line, SLOT) && !Valid(line, LONG_SLOT)
  {
    assert |LONG_ROW| == 5;
    assert SLOT[2] == ROW[2] == ':' && Digit(':') < 0;
    assert LONG_SLOT[3] == '#';
  }

  // ---------------------------------------------------------------------- whole files

  predicate Clean(line: string) {
    NUL !in line && '\n' !in line && '\r' !in line
  }

  predicate AllClean(lines: seq<string>) {
    lines == [] || (Clean(lines[0]) && AllClean(lines[1..]))
  }

  /** A line that comes back from the file as it was written. */
  predicate Plain(line: string) {
    |line| < LINE_MAX && Clean(line)
  }

  lemma {:induction false} AllCleanAppend(a: seq<string>, b: seq<string>)
    requires AllClean(a) && AllClean(b)
    ensures AllClean(a + b)
    decreases |a|
  {
    if a == [] {
      assert a + b == b;
    } else {
      assert (a + b)[1..] == a[1..] + b;
      AllCleanAppend(a[1..], b);
    }
  }

  /** The lines one by one, up to the first that does not fit the buffer. */
  function TakeLines(lines: seq<string>, st: State): Result
    requires AllClean(lines) && StateOk(st)
    decreases |lines|
  {
    if lines == [] then Loaded(st)
    else if !Plain(lines[0]) then Failed(UNTERMINATED)
    else
      var r := TakeLine(st, lines[0]);
      if r.Failed? then r else TakeLines(lines[1..], r.st)
  }

  lemma {:induction false} TakeAppend(a: seq<string>, b: seq<string>, st: State)
    requires AllClean(a) && AllClean(b) && AllClean(a + b) && StateOk(st) && TakeLines(a, st).Loaded?
    ensures StateOk(TakeLines(a, st).st) && TakeLines(a + b, st) == TakeLines(b, TakeLines(a, st).st)
    decreases |a|
  {
    hide TakeLine, StateOk;
    if a == [] {
      assert a + b == b;
    } else {
      assert (a + b)[1..] == a[1..] + b;
      TakeAppend(a[1..], b, TakeLine(st, a[0]).st);
    }
  }

  lemma {:induction false} FindsEnd(text: string, pos: nat, line: string, n: nat)
    requires Plain(line) && n <= |line| && pos + |line| < |text|
    requires text[pos..pos + |line|] == line && text[pos + |line|] == '\n'
    ensures LineEnd(text, pos, n) == Some(pos + |line|)
    decreases |line| - n
  {
    if n < |line| {
      assert text[pos + n] == text[pos..pos + |line|][n] == line[n];
      FindsEnd(text, pos, line, n + 1);
    }
  }

  lemma LineBack(pre: string, line: string, rest: string)
    requires Plain(line)
    ensures LineAt(pre + (line + "\n" + rest), |pre|) == Some((line, |pre| + |line| + 1))
  {
    hide LineEnd;
    var text := pre + (line + "\n" + rest);
    InMiddle(pre, line, rest);
    FindsEnd(text, |pre|, line, 0);
  }

  lemma InMiddle(pre: string, line: string, rest: string)
    ensures var text, k := pre + (line + "\n" + rest), |pre| + |line|;
            k < |text| && text[|pre|..k] == line && text[k] == '\n'
  {
  }

  /** A longer line is none. */
  lemma {:induction false} FindsNoEnd(text: string, pos: nat, n: nat)
    requires n <= LINE_MAX && pos + LINE_MAX <= |text| && forall i | pos <= i < pos + LINE_MAX :: text[i] != '\n'
    ensures LineEnd(text, pos, n) == None
    decreases LINE_MAX - n
  {
    if n < LINE_MAX && text[pos + n] != NUL {
      FindsNoEnd(text, pos, n + 1);
    }
  }

  lemma LongLine(pre: string, line: string, rest: string)
    requires Clean(line) && |line| >= LINE_MAX
    ensures LineAt(pre + (line + "\n" + rest), |pre|) == None
  {
    var text := pre + (line + "\n" + rest);
    assert forall i | |pre| <= i < |pre| + |line| :: text[i] == line[i - |pre|];
    FindsNoEnd(text, |pre|, 0);
  }

  lemma {:induction false} FileLines(pre: string, lines: seq<string>, st: State)
    requires AllClean(lines) && StateOk(st)
    ensures ParseFile(pre + Joined(lines), |pre|, st) == TakeLines(lines, st)
    decreases |lines|
  {
    hide LineAt, TakeLine, StateOk;
    if lines == [] {
      assert pre + Joined(lines) == pre;
    } else if !Plain(lines[0]) {
      LongLine(pre, lines[0], Joined(lines[1..]));
    } else {
      var r := TakeLine(st, lines[0]);
      LineBack(pre, lines[0], Joined(lines[1..]));
      if r.Loaded? {
        var pre' := pre + lines[0] + "\n";
        assert pre' + Joined(lines[1..]) == pre + (lines[0] + "\n" + Joined(lines[1..]));
        FileLines(pre', lines[1..], r.st);
      }
    }
  }

  /** The rows of a device fill its buffer. */
  lemma {:induction false} RowsBack(addr: Address, had: seq<Byte>, bytes: seq<Byte>, devs: seq<Dev>)
    requires |bytes| % 16 == 0 && |had| + |bytes| <= LONG
    requires StateOk(State([Image(addr, had)] + devs, true))
    ensures AllClean(Rows(bytes, |had|))
    ensures TakeLines(Rows(bytes, |had|), State([Image(addr, had)] + devs, true))
         == Loaded(State([Image(addr, had + bytes)] + devs, true))
    decreases |bytes|
  {
    hide Image, Offset, RowText, TakeLine, Clean, Plain, AllClean, StateOk, Rows, TakeLines;
    if bytes == [] {
      NoRows(|had|, State([Image(addr, had)] + devs, true));
      assert had + bytes == had;
    } else {
      var row, more := bytes[..16], bytes[16..];
      var line := Offset(|had|) + ":" + RowText(row);
      assert had + bytes == had + row + more;
      RowPlain(|had|, row);
      OneRow(addr, had, row, devs);
      RowsBack(addr, had + row, more, devs);
      RowsFirst(bytes, |had|);
      TakesFirst(line, Rows(more, |had| + 16), State([Image(addr, had)] + devs, true));
    }
  }

  lemma NoRows(i: nat, st: State)
    requires i <= LONG && StateOk(st)
    ensures AllClean(Rows([], i)) && TakeLines(Rows([], i), st) == Loaded(st)
  {
  }

  lemma RowsFirst(bytes: seq<Byte>, i: nat)
    requires |bytes| % 16 == 0 && bytes != [] && i + |bytes| <= LONG
    ensures Rows(bytes, i) == [Offset(i) + ":" + RowText(bytes[..16])] + Rows(bytes[16..], i + 16)
  {
    hide Offset, RowText;
  }

  lemma TakesFirst(line: string, rest: seq<string>, st: State)
    requires Plain(line) && AllClean(rest) && StateOk(st) && TakeLine(st, line).Loaded?
    ensures AllClean([line] + rest) && TakeLines([line] + rest, st) == TakeLines(rest, TakeLine(st, line).st)
  {
    hide TakeLine, Clean, StateOk;
    var all := [line] + rest;
    assert all[0] == line && all[1..] == rest;
  }

  lemma OneRow(addr: Address, had: seq<Byte>, bytes: seq<Byte>, devs: seq<Dev>)
    requires bytes != [] && |had| + |bytes| <= LONG && StateOk(State([Image(addr, had)] + devs, true))
    requires NUL !in Offset(|had|) + ":" + RowText(bytes)
    ensures TakeLine(State([Image(addr, had)] + devs, true), Offset(|had|) + ":" + RowText(bytes))
         == Loaded(State([Image(addr, had + bytes)] + devs, true))
    ensures StateOk(State([Image(addr, had + bytes)] + devs, true))
  {
    hide Image, Offset, RowText, ReadRow, RowLine, SlotLine, TakeLine, StateOk, Tail, DevOk;
    var line := Offset(|had|) + ":" + RowText(bytes);
    RowLineBack(|had|, bytes);
    RowBack(addr, had, bytes, line, |Offset(|had|)| + 2);
    TakesRow(Image(addr, had), devs, line, |had|, |Offset(|had|)| + 2, Image(addr, had + bytes));
  }

  lemma TakesRow(d: Dev, devs: seq<Dev>, line: string, i: nat, z: nat, d': Dev)
    requires StateOk(State([d] + devs, true)) && NUL !in line && line != "" && z <= |line|
    requires SlotLine(line) == None && RowLine(line) == Some((i, z))
    requires DevOk(d) && ReadRow(d, i, line, z) == Stored(d')
    ensures TakeLine(State([d] + devs, true), line) == Loaded(State([d'] + devs, true))
    ensures StateOk(State([d'] + devs, true))
  {
    hide ReadRow, RowLine, SlotLine, DevOk;
    var all := [d] + devs;
    assert all[0] == d && all[1..] == devs;
  }

  lemma RowPlain(i: nat, bytes: seq<Byte>)
    requires i < LONG && |bytes| == 16
    ensures Plain(Offset(i) + ":" + RowText(bytes)) && NUL !in Offset(i) + ":" + RowText(bytes)
  {
    HexClean(i, if i < 0x100 then 2 else 3);
    RowTextPlain(bytes);
    hide HexText, RowText;
  }

  lemma {:induction false} RowTextPlain(bytes: seq<Byte>)
    ensures |RowText(bytes)| == 3 * |bytes|
    ensures forall c | c in RowText(bytes) :: c !in [NUL, '\n', '\r']
    decreases |bytes|
  {
    if bytes != [] {
      RowTextPlain(bytes[..|bytes| - 1]);
      HexClean(bytes[|bytes| - 1], 2);
    }
  }

  lemma SlotClean(p: Source)
    requires SourceOk(p)
    ensures Clean(SlotText(p))
  {
    HexClean(p.addr.domain, 4);
    HexClean(p.addr.bus, 2);
    HexClean(p.addr.dev, 2);
    HexClean(p.addr.func, 1);
    hide HexText;
  }

  /** A device, its rows and the blank line behind them. */
  lemma SourceBack(p: Source, devs: seq<Dev>, open: bool)
    requires SourceOk(p) && StateOk(State(devs, open))
    ensures AllClean(SourceLines(p))
    ensures TakeLines(SourceLines(p), State(devs, open))
         == if Fits(p) then Loaded(State([Image(p.addr, p.bytes)] + devs, false)) else Failed(UNTERMINATED)
    ensures StateOk(State([Image(p.addr, p.bytes)] + devs, false))
  {
    var slot, rows := [SlotText(p)], Rows(p.bytes, 0);
    var st := State([Image(p.addr, [])] + devs, true);
    SlotBack(p);
    SlotClean(p);
    assert Image(p.addr, []) == Dev(p.addr, Blank(SHORT), 0) by {
      assert [] + Blank(SHORT) == Blank(SHORT);
    }
    assert [] + p.bytes == p.bytes;
    assert TakeLine(State(devs, open), SlotText(p)) == Loaded(st);
    hide Image, SlotText, SlotLine, TakeLine, Rows, Blank;
    RowsBack(p.addr, [], p.bytes, devs);
    Pieces(p, slot, rows, State(devs, open), st, State([Image(p.addr, p.bytes)] + devs, true));
  }

  lemma Pieces(p: Source, slot: seq<string>, rows: seq<string>, st0: State, st: State, st': State)
    requires SourceOk(p) && slot == [SlotText(p)] && rows == Rows(p.bytes, 0) && Clean(SlotText(p)) && AllClean(rows)
    requires StateOk(st0) && StateOk(st) && TakeLine(st0, SlotText(p)) == Loaded(st)
    requires TakeLines(rows, st) == Loaded(st')
    ensures AllClean(SourceLines(p)) && StateOk(st') && StateOk(st'.(open := false))
    ensures TakeLines(SourceLines(p), st0) == if Fits(p) then Loaded(st'.(open := false)) else Failed(UNTERMINATED)
  {
    hide Rows, SlotText, RowLine;
    var blank := [""];
    assert Clean("") && blank[1..] == [] && slot[1..] == [] && AllClean(blank) && AllClean(slot);
    AllCleanAppend(rows, blank);
    AllCleanAppend(slot, rows + blank);
    assert slot + (rows + blank) == SourceLines(p);
    TakeAppend(rows, blank, st);
    EmptyLine(st');
    if !Fits(p) {
      assert SourceLines(p)[0] == SlotText(p);
      return;
    }
    assert TakeLines(slot, st0) == Loaded(st) by {
      assert slot[0] == SlotText(p) && slot[1..] == [];
    }
    TakeAppend(slot, rows + blank, st0);
    assert blank[0] == "" && blank[1..] == [];
  }

  lemma EmptyLine(st: State)
    requires StateOk(st)
    ensures TakeLine(st, "") == Loaded(st.(open := false)) && StateOk(st.(open := false))
  {
    assert SLOT[2] == ':' && LONG_SLOT[4] == ':';
    assert At("", 2) == NUL && At("", 4) == NUL;
    assert !Valid("", SLOT) && !Valid("", LONG_SLOT);
  }

  lemma {:induction false} SourcesBack(ps: seq<Source>, devs: seq<Dev>, open: bool)
    requires AllOk(ps) && StateOk(State(devs, open))
    ensures AllClean(AllLines(ps))
    ensures TakeLines(AllLines(ps), State(devs, open))
         == if AllFit(ps) then Loaded(State(Onto(ps, devs), if ps == [] then open else false)) else Failed(UNTERMINATED)
    decreases |ps|
  {
    if ps != [] {
      var p := ps[0];
      var more := [Image(p.addr, p.bytes)] + devs;
      SourceBack(p, devs, open);
      hide Image, Plain, TakeLine, Clean, Fits;
      SourcesBack(ps[1..], more, false);
      AllCleanAppend(SourceLines(p), AllLines(ps[1..]));
      if Fits(p) {
        TakeAppend(SourceLines(p), AllLines(ps[1..]), State(devs, open));
      } else {
        FirstTooLong(p, AllLines(ps[1..]), State(devs, open));
      }
    }
  }

  /** Nothing is read behind a slot line that does not fit. */
  lemma FirstTooLong(p: Source, rest: seq<string>, st: State)
    requires SourceOk(p) && !Fits(p) && StateOk(st) && AllClean(SourceLines(p) + rest)
    ensures TakeLines(SourceLines(p) + rest, st) == Failed(UNTERMINATED)
  {
    assert (SourceLines(p) + rest)[0] == SlotText(p);
  }

  /** A printed dump reads back if and only if every slot line fits the buffer: the same
      addresses and bytes, newest device first. Otherwise the program ends there. */
  lemma DumpBack(ps: seq<Source>)
    requires AllOk(ps)
    ensures ParseFile(Joined(AllLines(ps)), 0, START)
         == if AllFit(ps) then Loaded(State(Onto(ps, []), false)) else Failed(UNTERMINATED)
  {
    SourcesBack(ps, [], false);
    FileLines("", AllLines(ps), START);
    assert "" + Joined(AllLines(ps)) == Joined(AllLines(ps));
  }

  /** No two sources have the same address. */
  predicate Distinct(ps: seq<Source>) {
    forall i, j | 0 <= i < j < |ps| :: ps[i].addr != ps[j].addr
  }

  /** Reading at an address that is not among the sources goes past them. */
  lemma {:induction false} OntoPasses(ps: seq<Source>, devs: seq<Dev>, addr: Address, pos: nat, n: nat)
    requires AllOk(ps) && (forall i | 0 <= i < |devs| :: DevOk(devs[i]))
    requires forall i | 0 <= i < |ps| :: ps[i].addr != addr
    ensures forall i | 0 <= i < |Onto(ps, devs)| :: DevOk(Onto(ps, devs)[i])
    ensures ReadFrom(Onto(ps, devs), addr, pos, n) == ReadFrom(devs, addr, pos, n)
    decreases |ps|
  {
    if ps != [] {
      var more := [Image(ps[0].addr, ps[0].bytes)] + devs;
      assert more[1..] == devs;
      OntoPasses(ps[1..], more, addr, pos, n);
    }
  }

  /** Reading from a dump that has been read back succeeds exactly within the bytes that
      were printed, and gives them. */
  lemma {:induction false} ReadBack(ps: seq<Source>, devs: seq<Dev>, k: nat, pos: nat, n: nat)
    requires AllOk(ps) && (forall i | 0 <= i < |devs| :: DevOk(devs[i])) && Distinct(ps) && k < |ps|
    ensures forall i | 0 <= i < |Onto(ps, devs)| :: DevOk(Onto(ps, devs)[i])
    ensures |ps[k].bytes| <= LONG
    ensures ReadFrom(Onto(ps, devs), ps[k].addr, pos, n)
         == if pos + n <= |ps[k].bytes| then Some(ps[k].bytes[pos..pos + n]) else None
    decreases |ps|
  {
    var p := ps[0];
    var more := [Image(p.addr, p.bytes)] + devs;
    if k == 0 {
      OntoPasses(ps[1..], more, p.addr, pos, n);
      var d := Image(p.addr, p.bytes);
      if pos + n <= |p.bytes| {
        assert d.data[pos..pos + n] == d.data[..d.len][pos..pos + n];
      }
    } else {
      ReadBack(ps[1..], more, k - 1, pos, n);
    }
  }
}
