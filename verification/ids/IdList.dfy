/** The parser of the ID list, lib/names-parse.c. */
module IdList {
  import opened Wrappers
  import opened Hex
  import opened IdHash

  const MAX_LINE := 1024

  const PARSE_ERROR := "Parse error"
  const LINE_TOO_LONG := "Line too long"
  const NO_VENDOR := "Vendor does not exist"
  const DUPLICATE := "Duplicate entry"

  predicate White(c: char) {
    c == ' ' || c == '\t'
  }

  // ------------------------------------------------------------ hexadecimal numbers

  method IdHex(s: string, i: nat, cnt: nat) returns (x: int)
    ensures x == HexAt(s, i, cnt)
  {
    x := 0;
    var p := i;
    while p < i + cnt
      invariant i <= p <= i + cnt && x >= 0 && x == HexAt(s, i, p - i)
    {
      var c := At(s, p);
      x := 16 * x;
      if '0' <= c <= '9' {
        x := x + (c as int - '0' as int);
      } else if 'a' <= c <= 'f' {
        x := x + (c as int - 'a' as int + 10);
      } else if 'A' <= c <= 'F' {
        x := x + (c as int - 'A' as int + 10);
      } else {
        HexStops(s, i, p - i, cnt);
        return -1;
      }
      p := p + 1;
    }
  }

  // ------------------------------------------------------------------------- lines

  /** The block and entry the parser is in; `cat` is None before the first block. */
  datatype State = State(cat: Option<Category>, id1: int, id2: int, id3: int, id4: int)

  const START := State(None, 0, 0, 0, 0)

  datatype Outcome = Skip(st: State) | Add(entry: State, name: string) | Stop(error: string)

  function SkipWhite(s: string, i: nat): (r: nat)
    requires i <= |s|
    ensures i <= r <= |s| && !White(At(s, r)) && forall k | i <= k < r :: White(s[k])
    decreases |s| - i
  {
    if i < |s| && White(s[i]) then SkipWhite(s, i + 1) else i
  }

  function SkipTabs(s: string, i: nat): (r: nat)
    requires i <= |s|
    ensures i <= r <= |s| && At(s, r) != '\t' && forall k | i <= k < r :: s[k] == '\t'
    decreases |s| - i
  {
    if i < |s| && s[i] == '\t' then SkipTabs(s, i + 1) else i
  }

  /** Blank lines and comments. */
  predicate Ignored(line: string) {
    At(line, SkipWhite(line, 0)) in [NUL, '#']
  }

  /** The end of every entry line: a name behind white space. */
  function Named(line: string, p: nat, st: State): Outcome
    requires p <= |line|
  {
    var q := SkipWhite(line, p);
    if q == |line| then Stop(PARSE_ERROR) else Add(st, line[q..])
  }

  /** What a line means, once its end has been trimmed. `known` are the names so far. */
  function ParseLine(st: State, line: string, known: map<Key, Stored>): Outcome
    requires NUL !in line
  {
    if Ignored(line) then Skip(st)
    else
      var nest := SkipTabs(line, 0);
      if nest == 0 then ParseTop(st, line, known) else ParseNested(st, line, nest)
  }

  /** Lines that begin a section. */
  function ParseTop(st: State, line: string, known: map<Key, Stored>): Outcome
    requires NUL !in line
  {
    if At(line, 0) == 'C' && At(line, 1) == ' ' then
      var id := HexAt(line, 2, 2);
      if id < 0 || !White(At(line, 4)) then Stop(PARSE_ERROR) else Named(line, 5, State(Some(Class), id, 0, 0, 0))
    else if At(line, 0) == 'S' && At(line, 1) == ' ' then
      var id := HexAt(line, 2, 4);
      if id < 0 || At(line, 6) != NUL then Stop(PARSE_ERROR)
      else if !KnownVendor(id, known) then Stop(NO_VENDOR)
      else Skip(st.(cat := Some(GenSubsystem), id1 := id))
    else if 'A' <= At(line, 0) <= 'Z' && At(line, 1) == ' ' then Skip(st.(cat := Some(Unknown)))
    else
      var id := HexAt(line, 0, 4);
      if id < 0 || !White(At(line, 4)) then Stop(PARSE_ERROR) else Named(line, 5, State(Some(Vendor), id, 0, 0, 0))
  }

  /** Lines indented by tabs, by the section they stand in. */
  function ParseNested(st: State, line: string, nest: nat): Outcome {
    if st.cat == Some(Unknown) then Skip(st)
    else if nest == 1 then
      if st.cat in [Some(Vendor), Some(Device), Some(Subsystem), Some(GenSubsystem)] then
        var id := HexAt(line, 1, 4);
        var cat := if st.cat == Some(GenSubsystem) then GenSubsystem else Device;
        if id < 0 || !White(At(line, 5)) then Stop(PARSE_ERROR) else Named(line, 6, State(Some(cat), st.id1, id, 0, 0))
      else if st.cat in [Some(Class), Some(Subclass), Some(ProgIf)] then
        var id := HexAt(line, 1, 2);
        if id < 0 || !White(At(line, 3)) then Stop(PARSE_ERROR)
        else Named(line, 4, State(Some(Subclass), st.id1, id, 0, 0))
      else Stop(PARSE_ERROR)
    else if nest == 2 then
      if st.cat in [Some(Device), Some(Subsystem)] then
        var id3 := HexAt(line, 2, 4);
        var id4 := HexAt(line, 7, 4);
        if id3 < 0 || !White(At(line, 6)) || id4 < 0 || !White(At(line, 11)) then Stop(PARSE_ERROR)
        else Named(line, 12, State(Some(Subsystem), st.id1, st.id2, id3, id4))
      else if st.cat in [Some(Class), Some(Subclass), Some(ProgIf)] then
        var id3 := HexAt(line, 2, 2);
        if id3 < 0 || !White(At(line, 4)) then Stop(PARSE_ERROR)
        else Named(line, 5, State(Some(ProgIf), st.id1, st.id2, id3, 0))
      else Stop(PARSE_ERROR)
    else Stop(PARSE_ERROR)
  }

  /** A lookup without flags. */
  predicate KnownVendor(id: int, known: map<Key, Stored>)
  {
    0 <= id < 0x1_0000 && var k := MakeKey(Vendor, id, 0, 0, 0); k in known && Visible(known[k].src, NO_FLAGS)
  }

  predicate StateOk(st: State) {
    0 <= st.id1 < 0x1_0000 && 0 <= st.id2 < 0x1_0000 && 0 <= st.id3 < 0x1_0000 && 0 <= st.id4 < 0x1_0000
  }

  function KeyOf(st: State): (r: Key)
    requires StateOk(st) && st.cat.Some?
    ensures IsKey(r)
  {
    MakeKey(st.cat.value, st.id1, st.id2, st.id3, st.id4)
  }

  lemma ParseLineOk(st: State, line: string, known: map<Key, Stored>)
    requires NUL !in line && StateOk(st)
    ensures var o := ParseLine(st, line, known);
            (o.Skip? ==> StateOk(o.st)) && (o.Add? ==> StateOk(o.entry) && o.entry.cat.Some?)
  {
    hide ParseTop, ParseNested;
    TopOk(st, line, known);
    NestedOk(st, line, SkipTabs(line, 0));
  }

  lemma TopOk(st: State, line: string, known: map<Key, Stored>)
    requires NUL !in line && StateOk(st)
    ensures var o := ParseTop(st, line, known);
            (o.Skip? ==> StateOk(o.st)) && (o.Add? ==> StateOk(o.entry) && o.entry.cat.Some?)
  {
    assert Pow16(4) == 0x1_0000 && Pow16(2) == 0x100;
    HexAtBound(line, 0, 4);
    HexAtBound(line, 2, 4);
    HexAtBound(line, 2, 2);
    hide HexAt, Pow16;
  }

  lemma NestedOk(st: State, line: string, nest: nat)
    requires StateOk(st)
    ensures var o := ParseNested(st, line, nest);
            (o.Skip? ==> StateOk(o.st)) && (o.Add? ==> StateOk(o.entry) && o.entry.cat.Some?)
  {
    assert Pow16(4) == 0x1_0000 && Pow16(2) == 0x100;
    HexAtBound(line, 1, 4);
    HexAtBound(line, 2, 4);
    HexAtBound(line, 7, 4);
    HexAtBound(line, 1, 2);
    HexAtBound(line, 2, 2);
    hide HexAt, Pow16;
  }

  // ------------------------------------------------------------------------- files

  /** How many characters fgets reads: a line with its newline, or what fits the buffer. */
  function LineLength(text: string, pos: nat): (r: nat)
    requires pos < |text|
    ensures 0 < r <= MAX_LINE - 1 && pos + r <= |text|
    ensures forall i | pos <= i < pos + r - 1 :: text[i] != '\n'
    ensures r == MAX_LINE - 1 || pos + r == |text| || text[pos + r - 1] == '\n'
  {
    LineLengthFrom(text, pos, 1)
  }

  function LineLengthFrom(text: string, pos: nat, n: nat): (r: nat)
    requires 1 <= n <= MAX_LINE - 1 && pos + n <= |text| && forall i | pos <= i < pos + n - 1 :: text[i] != '\n'
    ensures n <= r <= MAX_LINE - 1 && pos + r <= |text|
    ensures forall i | pos <= i < pos + r - 1 :: text[i] != '\n'
    ensures r == MAX_LINE - 1 || pos + r == |text| || text[pos + r - 1] == '\n'
    decreases MAX_LINE - n
  {
    if n == MAX_LINE - 1 || pos + n == |text| || text[pos + n - 1] == '\n' then n else LineLengthFrom(text, pos, n + 1)
  }

  /** Did reading this line meet the end of the file? */
  predicate AtEof(text: string, pos: nat, n: nat)
    requires 0 < n && pos + n <= |text|
  {
    n < MAX_LINE - 1 && text[pos + n - 1] != '\n'
  }

  /** Length of a line without its end. */
  function LineEnd(raw: string): (r: nat)
    ensures r <= |raw| && forall i | 0 <= i < r :: raw[i] !in [NUL, '\n', '\r']
    ensures At(raw, r) in [NUL, '\n', '\r']
  {
    LineEndFrom(raw, 0)
  }

  function LineEndFrom(raw: string, i: nat): (r: nat)
    requires i <= |raw| && forall k | 0 <= k < i :: raw[k] !in [NUL, '\n', '\r']
    ensures i <= r <= |raw| && forall k | 0 <= k < r :: raw[k] !in [NUL, '\n', '\r']
    ensures At(raw, r) in [NUL, '\n', '\r']
    decreases |raw| - i
  {
    if At(raw, i) in [NUL, '\n', '\r'] then i else LineEndFrom(raw, i + 1)
  }

  /** One trailing blank goes. */
  function Trimmed(line: string): string {
    if line != "" && White(line[|line| - 1]) then line[..|line| - 1] else line
  }

  datatype Result = Failed(error: string, known: map<Key, Stored>) | Loaded(st: State, known: map<Key, Stored>)

  /** What an outcome does to the table. */
  function Apply(o: Outcome, known: map<Key, Stored>): Result
    requires o.Add? ==> StateOk(o.entry) && o.entry.cat.Some?
  {
    match o
    case Skip(st) => Loaded(st, known)
    case Stop(error) => Failed(error, known)
    case Add(st, name) =>
      if KeyOf(st) in known then Failed(DUPLICATE, known) else Loaded(st, known[KeyOf(st) := Stored(FromLocal, name)])
  }

  /** The line at pos without its end, or nothing if it is too long for the buffer. */
  function LineAt(text: string, pos: nat): (r: Option<string>)
    requires pos < |text|
    ensures r.Some? ==> NUL !in r.value
  {
    var n := LineLength(text, pos);
    var raw := text[pos..pos + n];
    var end := LineEnd(raw);
    if At(raw, end) == NUL && !AtEof(text, pos, n) then None else Some(Trimmed(raw[..end]))
  }

  /** One line. */
  function OneLine(st: State, line: string, known: map<Key, Stored>): (r: Result)
    requires NUL !in line && StateOk(st)
    ensures r.Loaded? ==> StateOk(r.st)
  {
    ParseLineOk(st, line, known);
    Apply(ParseLine(st, line, known), known)
  }

  /** The file from pos on. */
  function ParseText(text: string, pos: nat, st: State, known: map<Key, Stored>): Result
    requires pos <= |text| && StateOk(st)
    decreases |text| - pos
  {
    if pos == |text| then Loaded(st, known)
    else
      var line := LineAt(text, pos);
      if line.None? then Failed(LINE_TOO_LONG, known)
      else
        var r := OneLine(st, line.value, known);
        if r.Failed? then r else ParseText(text, pos + LineLength(text, pos), r.st, r.known)
  }

  /** One line of the file, read into the buffer: without its line end and one trailing blank, or
      nothing if neither the end of a line nor that of the file was met. */
  method ReadLine(text: string, pos: nat) returns (line: Option<string>, next: nat)
    requires pos < |text|
    ensures line == LineAt(text, pos) && next == pos + LineLength(text, pos)
  {
    hide LineLength, LineEnd, Trimmed;
    var n := LineLength(text, pos);
    var raw := text[pos..pos + n];
    next := pos + n;
    var p := FindEnd(raw);
    if At(raw, p) == NUL && !AtEof(text, pos, n) {
      return None, next;
    }
    line := Some(Trimmed(raw[..p]));
  }

  method FindEnd(raw: string) returns (p: nat)
    ensures p == LineEnd(raw)
  {
    p := 0;
    while At(raw, p) != NUL && At(raw, p) != '\n' && At(raw, p) != '\r'
      invariant p <= |raw| && forall k | 0 <= k < p :: raw[k] !in [NUL, '\n', '\r']
      invariant LineEnd(raw) == LineEndFrom(raw, p)
      decreases |raw| - p
    {
      p := p + 1;
    }
  }

  // -------------------------------------------------------------------- the parser

  /** The identifiers on a line, by the block it stands in: the new state and where the
      name begins, or nothing when the line only sets the state. */
  method ReadIds(t: Table, line: string, st: State, nest: nat)
    returns (err: Option<string>, st': State, name: Option<nat>)
    requires t.Valid() && NUL !in line && !Ignored(line) && nest == SkipTabs(line, 0)
    ensures name.Some? ==> name.value <= |line|
    ensures ParseLine(st, line, t.stored)
         == if err.Some? then Stop(err.value) else if name.None? then Skip(st') else Named(line, name.value, st')
  {
    st' := st;
    var id: int;
    if nest == 0 {
      if At(line, 0) == 'C' && At(line, 1) == ' ' {
        id := IdHex(line, 2, 2);
        if id < 0 || !White(At(line, 4)) {
          return Some(PARSE_ERROR), st, None;
        }
        return None, State(Some(Class), id, 0, 0, 0), Some(5);
      } else if At(line, 0) == 'S' && At(line, 1) == ' ' {
        id := IdHex(line, 2, 4);
        if id < 0 || At(line, 6) != NUL {
          return Some(PARSE_ERROR), st, None;
        }
        HexAtBound(line, 2, 4);
        assert Pow16(4) == 0x1_0000;
        var vendor := t.Lookup(NO_FLAGS, MakeKey(Vendor, id, 0, 0, 0));
        if vendor.None? {
          return Some(NO_VENDOR), st, None;
        }
        return None, st.(cat := Some(GenSubsystem), id1 := id), None;
      } else if 'A' <= At(line, 0) <= 'Z' && At(line, 1) == ' ' {
        return None, st.(cat := Some(Unknown)), None;
      } else {
        id := IdHex(line, 0, 4);
        if id < 0 || !White(At(line, 4)) {
          return Some(PARSE_ERROR), st, None;
        }
        return None, State(Some(Vendor), id, 0, 0, 0), Some(5);
      }
    } else if st.cat == Some(Unknown) {
      return None, st, None;
    } else {
      err, st', name := ReadNested(line, st, nest);
    }
  }

  /** The same for the indented lines. */
  method ReadNested(line: string, st: State, nest: nat) returns (err: Option<string>, st': State, name: Option<nat>)
    requires NUL !in line && !Ignored(line) && nest == SkipTabs(line, 0) && nest > 0 && st.cat != Some(Unknown)
    ensures name.Some? ==> name.value <= |line|
    ensures err.Some? || name.Some?
    ensures forall known ::
              ParseLine(st, line, known) == if err.Some? then Stop(err.value) else Named(line, name.value, st')
  {
    err, st', name := Some(PARSE_ERROR), st, None;
    if nest == 1 {
      if st.cat in [Some(Vendor), Some(Device), Some(Subsystem), Some(GenSubsystem)] {
        var id2 := IdHex(line, 1, 4);
        if id2 < 0 || !White(At(line, 5)) {
          return;
        }
        return None, State(Some(if st.cat == Some(GenSubsystem) then GenSubsystem else Device), st.id1, id2, 0, 0),
            Some(6);
      } else if st.cat in [Some(Class), Some(Subclass), Some(ProgIf)] {
        var id2 := IdHex(line, 1, 2);
        if id2 < 0 || !White(At(line, 3)) {
          return;
        }
        return None, State(Some(Subclass), st.id1, id2, 0, 0), Some(4);
      }
    } else if nest == 2 {
      if st.cat in [Some(Device), Some(Subsystem)] {
        var id3 := IdHex(line, 2, 4);
        if id3 < 0 || !White(At(line, 6)) {
          return;
        }
        var id4 := IdHex(line, 7, 4);
        if id4 < 0 || !White(At(line, 11)) {
          return;
        }
        return None, State(Some(Subsystem), st.id1, st.id2, id3, id4), Some(12);
      } else if st.cat in [Some(Class), Some(Subclass), Some(ProgIf)] {
        var id3 := IdHex(line, 2, 2);
        if id3 < 0 || !White(At(line, 4)) {
          return;
        }
        return None, State(Some(ProgIf), st.id1, st.id2, id3, 0), Some(5);
      }
    }
  }

  /** One line of the list. */
  method TakeLine(t: Table, line: string, st: State) returns (err: Option<string>, st': State)
    requires t.Valid() && NUL !in line && StateOk(st)
    modifies t, t.allocator, t.chains
    ensures t.Valid() && (t.chains == old(t.chains) || fresh(t.chains))
    ensures var r := OneLine(st, line, old(t.stored));
            && t.stored == r.known
                && (if r.Failed? then err == Some(r.error) else err == None && st' == r.st && StateOk(st'))
  {
    ParseLineOk(st, line, t.stored);
    var p := SkipWhite(line, 0);
    if p == |line| || line[p] == '#' {
      return None, st;
    }
    var nest := SkipTabs(line, 0);
    var name: Option<nat>;
    err, st', name := ReadIds(t, line, st, nest);
    if err.Some? || name.None? {
      return;
    }
    hide ParseLine;
    p := SkipWhite(line, name.value);
    if p == |line| {
      return Some(PARSE_ERROR), st;
    }
    var duplicate := t.Insert(KeyOf(st'), line[p..], FromLocal);
    if duplicate {
      return Some(DUPLICATE), st;
    }
  }

  /** The whole list. */
  method ParseList(t: Table, text: string) returns (err: Option<string>)
    requires t.Valid()
    modifies t, t.allocator, t.chains
    ensures t.Valid()
    ensures var r := ParseText(text, 0, START, old(t.stored));
            t.stored == r.known && err == if r.Failed? then Some(r.error) else None
  {
    hide OneLine, LineAt, LineLength, Table.Valid;
    var pos, st := 0, START;
    while pos < |text|
      invariant pos <= |text| && StateOk(st) && t.Valid() && (t.chains == old(t.chains) || fresh(t.chains))
      invariant ParseText(text, 0, START, old(t.stored)) == ParseText(text, pos, st, t.stored)
    {
      var line, next := ReadLine(text, pos);
      if line.None? {
        return Some(LINE_TOO_LONG);
      }
      err, st := TakeLine(t, line.value, st);
      if err.Some? {
        return;
      }
      pos := next;
    }
    return None;
  }
}
