/** Reading bus dumps, lib/dump.c. */
module DumpFile {
  import opened Wrappers
  import opened ByteSeq
  import opened Hex

  const SHORT := 256
  const LONG := 4096
  /** What fgets may store: the buffer less one for the terminator, and one more. */
  const LINE_MAX := 254

  const UNTERMINATED := "line too long or unterminated"
  const TOO_BIG := "At most 4096 bytes of config space are supported"
  const MALFORMED := "Malformed line"

  datatype Address = Address(domain: int, bus: int, dev: int, func: int)

  /** A device of the dump: its allocated bytes, and up to where they have been given. */
  datatype Dev = Dev(addr: Address, data: seq<Byte>, len: nat)

  /** The buffer has one of the two sizes, and is used within it. */
  predicate DevOk(d: Dev) {
    (|d.data| == SHORT || |d.data| == LONG) && d.len <= |d.data|
  }

  function Blank(n: nat): (r: seq<Byte>)
    ensures |r| == n
  {
    seq(n, _ => 0xff)
  }

  // -------------------------------------------------------------------------- lines

  /** The beginning of the line has the form: # stands for a hexadecimal digit. */
  predicate Valid(s: string, fmt: string) {
    forall i | 0 <= i < |fmt| :: if fmt[i] == '#' then Digit(At(s, i)) >= 0 else At(s, i) == fmt[i]
  }

  const SLOT := "##:##.# "
  const LONG_SLOT := "####:##:##.# "
  const ROW := "##: "
  const LONG_ROW := "###: "

  predicate Decimal(c: char) {
    '0' <= c <= '9'
  }

  /** The address on a line that begins with one. The function is a decimal number. */
  function SlotLine(line: string): Option<Address> {
    if Valid(line, SLOT) && Decimal(At(line, 6)) then
      Some(Address(0, HexAt(line, 0, 2), HexAt(line, 3, 2), Digit(At(line, 6))))
    else if Valid(line, LONG_SLOT) && Decimal(At(line, 11)) then
      Some(Address(HexAt(line, 0, 4), HexAt(line, 5, 2), HexAt(line, 8, 2), Digit(At(line, 11))))
    else None
  }

  /** Where the bytes of a row belong, and where they begin on the line. */
  function RowLine(line: string): (r: Option<(int, nat)>)
  {
    if Valid(line, ROW) then Some((HexAt(line, 0, 2), 4))
    else if Valid(line, LONG_ROW) then Some((HexAt(line, 0, 3), 5))
    else None
  }

  lemma RowIsLong(line: string)
    ensures var r := RowLine(line); r.Some? ==> r.value.0 >= 0 && r.value.1 <= |line|
  {
    if Valid(line, ROW) {
      assert Digit(At(line, 0)) >= 0 && Digit(At(line, 1)) >= 0 && At(line, 3) == ROW[3];
      assert HexAt(line, 0, 1) >= 0;
    } else if Valid(line, LONG_ROW) {
      assert Digit(At(line, 0)) >= 0 && Digit(At(line, 1)) >= 0 && Digit(At(line, 2)) >= 0
             && At(line, 4) == LONG_ROW[4];
      assert HexAt(line, 0, 1) >= 0 && HexAt(line, 0, 2) >= 0;
    }
  }

  /** Byte j goes to offset i; the first one beyond the short buffer makes room. */
  function Store(d: Dev, i: nat, j: Byte): (r: Dev)
    requires DevOk(d) && i < LONG
    ensures DevOk(r) && r.addr == d.addr
  {
    var room := if i >= |d.data| then Dev(d.addr, d.data[..SHORT] + Blank(LONG - SHORT), 0) else d;
    Dev(d.addr, room.data[i := j], if i + 1 > room.len then i + 1 else room.len)
  }

  datatype Bytes = Stored(d: Dev) | BadRow(error: string)

  /** Two digits, with a blank or nothing behind them. */
  predicate ByteAt(line: string, z: nat) {
    Digit(At(line, z)) >= 0 && Digit(At(line, z + 1)) >= 0 && At(line, z + 2) in [NUL, ' ']
  }

  /** The bytes on a line from z on, for offsets from i on. */
  function ReadRow(d: Dev, i: nat, line: string, z: nat): (r: Bytes)
    requires NUL !in line && z <= |line| && DevOk(d)
    ensures r.Stored? ==> r.d.addr == d.addr && DevOk(r.d)
    decreases |line| - z
  {
    if ByteAt(line, z) then
      if i >= LONG then BadRow(TOO_BIG)
      else
        TwoDigits(line, z);
        ReadRow(Store(d, i, HexAt(line, z, 2)), i + 1, line, if z + 2 < |line| then z + 3 else z + 2)
    else if z < |line| then BadRow(MALFORMED) else Stored(d)
  }

  lemma TwoDigits(line: string, z: nat)
    requires Digit(At(line, z)) >= 0 && Digit(At(line, z + 1)) >= 0
    ensures 0 <= HexAt(line, z, 2) < 0x100 && z + 2 <= |line|
  {
    assert HexAt(line, z, 1) == Digit(At(line, z));
  }

  // -------------------------------------------------------------------------- files

  /** Devices, newest first; `open` tells whether rows belong to the newest. */
  datatype State = State(devs: seq<Dev>, open: bool)

  predicate StateOk(st: State) {
    && (st.open ==> st.devs != [])
    && forall d | d in st.devs :: DevOk(d)
  }

  datatype Result = Failed(error: string) | Loaded(st: State)

  function TakeLine(st: State, line: string): (r: Result)
    requires StateOk(st) && NUL !in line
    ensures r.Loaded? ==> StateOk(r.st)
  {
    if SlotLine(line).Some? then
      Loaded(State([Dev(SlotLine(line).value, Blank(SHORT), 0)] + st.devs, true))
    else if line == "" then Loaded(st.(open := false))
    else if st.open && RowLine(line).Some? then
      RowIsLong(line);
      var row := RowLine(line).value;
      var b := ReadRow(st.devs[0], row.0, line, row.1);
      if b.BadRow? then Failed(b.error) else Loaded(st.(devs := [b.d] + st.devs[1..]))
    else Loaded(st)
  }

  /** The line at pos: up to a newline within the buffer, less one carriage return. */
  function LineEnd(text: string, pos: nat, n: nat): (r: Option<nat>)
    requires n <= LINE_MAX && pos + n <= |text|
    ensures r.Some? ==> pos <= r.value < |text| && text[r.value] == '\n'
    ensures r.Some? ==> forall i | pos + n <= i < r.value :: text[i] !in [NUL, '\n']
    decreases LINE_MAX - n
  {
    if pos + n == |text| || n == LINE_MAX || text[pos + n] == NUL then None
    else if text[pos + n] == '\n' then Some(pos + n)
    else LineEnd(text, pos, n + 1)
  }

  function Chomped(line: string): string {
    if line != "" && line[|line| - 1] == '\r' then line[..|line| - 1] else line
  }

  function LineAt(text: string, pos: nat): (r: Option<(string, nat)>)
    requires pos < |text|
    ensures r.Some? ==> NUL !in r.value.0 && pos < r.value.1 <= |text|
  {
    var end := LineEnd(text, pos, 0);
    if end.None? then None else Some((Chomped(text[pos..end.value]), end.value + 1))
  }

  function ParseFile(text: string, pos: nat, st: State): Result
    requires pos <= |text| && StateOk(st)
    decreases |text| - pos
  {
    if pos == |text| then Loaded(st)
    else
      var l := LineAt(text, pos);
      if l.None? then Failed(UNTERMINATED)
      else
        var r := TakeLine(st, l.value.0);
        if r.Failed? then r else ParseFile(text, l.value.1, r.st)
  }

  const START := State([], false)
}
