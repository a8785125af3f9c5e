/** Messages as section 4.1 of RFC 1035 lays them out, and their reading. */
module DnsInverse {
  import opened Parts
  import opened Wrappers
  import opened ByteSeq
  import opened DnsPacket

  /** Labels, and at the end the root or a pointer to an earlier name (section 4.1.4). */
  datatype Name = Name(labels: seq<seq<Byte>>, pointer: Option<(Byte, Byte)>)

  datatype Resource = Resource(name: Name, kind: nat, rclass: nat, ttl: nat, data: seq<Byte>)

  datatype Question = Question(name: Name, kind: nat, rclass: nat)

  datatype Message = Message(head: (Byte, Byte, Byte, Byte), questions: seq<Question>,
                             answers: seq<Resource>, authority: seq<Resource>, additional: seq<Resource>)

  predicate NameOk(n: Name) {
    && LabelsOk(n.labels)
    && (n.pointer.Some? ==> n.pointer.value.0 >= 0xc0)
  }

  predicate LabelsOk(labels: seq<seq<Byte>>) {
    labels == [] || (0 < |labels[0]| < 0x40 && LabelsOk(labels[1..]))
  }

  function EncodeLabels(labels: seq<seq<Byte>>, tail: seq<Byte>): seq<Byte>
    requires LabelsOk(labels)
    decreases labels
  {
    if labels == [] then tail else [|labels[0]|] + labels[0] + EncodeLabels(labels[1..], tail)
  }

  function EncodeName(n: Name): (e: seq<Byte>)
    requires NameOk(n)
  {
    EncodeLabels(n.labels, if n.pointer.None? then [0] else [n.pointer.value.0, n.pointer.value.1])
  }

  function Word16(x: nat): (e: seq<Byte>)
    requires x < 0x1_0000
    ensures |e| == 2
  {
    [x / 0x100, x % 0x100]
  }

  predicate ResourceOk(r: Resource) {
    NameOk(r.name) && r.kind < 0x1_0000 && r.rclass < 0x1_0000 && r.ttl < 0x1_0000_0000 && |r.data| < 0x1_0000
  }

  predicate QuestionOk(q: Question) {
    NameOk(q.name) && q.kind < 0x1_0000 && q.rclass < 0x1_0000
  }

  /** Type, class, time to live and length. */
  function Fixed(r: Resource): (e: seq<Byte>)
    requires ResourceOk(r)
    ensures |e| == 10
  {
    Word16(r.kind) + Word16(r.rclass) + Word16(r.ttl / 0x1_0000) + Word16(r.ttl % 0x1_0000) + Word16(|r.data|)
  }

  function EncodeResource(r: Resource): seq<Byte>
    requires ResourceOk(r)
  {
    EncodeName(r.name) + Fixed(r) + r.data
  }

  function EncodeQuestion(q: Question): seq<Byte>
    requires QuestionOk(q)
  {
    EncodeName(q.name) + (Word16(q.kind) + Word16(q.rclass))
  }

  predicate AllOk(rs: seq<Resource>) {
    rs == [] || (ResourceOk(rs[0]) && AllOk(rs[1..]))
  }

  predicate AllQuestionsOk(qs: seq<Question>) {
    qs == [] || (QuestionOk(qs[0]) && AllQuestionsOk(qs[1..]))
  }

  function EncodeAll(rs: seq<Resource>): seq<Byte>
    requires AllOk(rs)
  {
    if rs == [] then [] else EncodeResource(rs[0]) + EncodeAll(rs[1..])
  }

  function EncodeQuestions(qs: seq<Question>): seq<Byte>
    requires AllQuestionsOk(qs)
  {
    if qs == [] then [] else EncodeQuestion(qs[0]) + EncodeQuestions(qs[1..])
  }

  predicate MessageOk(m: Message) {
    && AllQuestionsOk(m.questions) && AllOk(m.answers) && AllOk(m.authority) && AllOk(m.additional)
    && |m.questions| < 0x1_0000 && |m.answers| < 0x1_0000 && |m.authority| < 0x1_0000 && |m.additional| < 0x1_0000
  }

  function Header(m: Message): (e: seq<Byte>)
    requires MessageOk(m)
    ensures |e| == 12
  {
    [m.head.0, m.head.1, m.head.2, m.head.3]
      + Word16(|m.questions|) + Word16(|m.answers|) + Word16(|m.authority|) + Word16(|m.additional|)
  }

  /** The resources of a section other than the questions. */
  function SectionOf(m: Message, i: nat): seq<Resource>
    requires 0 < i < SECTIONS
  {
    if i == 1 then m.answers else if i == 2 then m.authority else m.additional
  }

  function Encode(m: Message): seq<Byte>
    requires MessageOk(m)
  {
    Header(m) + EncodeQuestions(m.questions) + EncodeAll(m.answers) + EncodeAll(m.authority) + EncodeAll(m.additional)
  }

  // ------------------------------------------------------------------------ reading back

  lemma Word16Back(buf: seq<Byte>, p: nat, x: nat)
    requires x < 0x1_0000 && Has(buf, Word16(x), p)
    ensures p + 2 <= |buf| && Word(buf, p) == x
  {
    var e := Word16(x);
    assert buf[p + 0] == e[0] && buf[p + 1] == e[1];
  }

  /** Behind an encoded name, when something follows it. */
  lemma {:induction false} LabelsBack(buf: seq<Byte>, p: nat, labels: seq<seq<Byte>>, tail: seq<Byte>)
    requires LabelsOk(labels) && (tail == [0] || (|tail| == 2 && tail[0] >= 0xc0))
    requires Has(buf, EncodeLabels(labels, tail), p) && p + |EncodeLabels(labels, tail)| < |buf|
    ensures SkipName(buf, p, |buf|) == Some(p + |EncodeLabels(labels, tail)|)
    decreases |labels|
  {
    if labels == [] {
      assert buf[p + 0] == tail[0];
    } else {
      var l, rest := labels[0], EncodeLabels(labels[1..], tail);
      var head: seq<Byte> := [|l|];
      HasPart(buf, p, head + l, rest);
      HasPart(buf, p, head, l);
      assert buf[p + 0] == head[0];
      LabelsBack(buf, p + 1 + |l|, labels[1..], tail);
    }
  }

  lemma NameBack(buf: seq<Byte>, p: nat, n: Name, rest: seq<Byte>)
    requires NameOk(n) && rest != [] && Has(buf, EncodeName(n) + rest, p)
    ensures SkipName(buf, p, |buf|) == Some(p + |EncodeName(n)|) && Has(buf, rest, p + |EncodeName(n)|)
  {
    HasPart(buf, p, EncodeName(n), rest);
    LabelsBack(buf, p, n.labels, if n.pointer.None? then [0] else [n.pointer.value.0, n.pointer.value.1]);
  }

  lemma QuestionBack(buf: seq<Byte>, p: nat, q: Question)
    requires QuestionOk(q) && Has(buf, EncodeQuestion(q), p)
    ensures EntryAt(buf, QUESTION, p) == Some(p + |EncodeQuestion(q)|)
  {
    var rest := Word16(q.kind) + Word16(q.rclass);
    NameBack(buf, p, q.name, rest);
    HasPart(buf, p, EncodeName(q.name), rest);
    hide SkipName, EncodeName;
  }

  lemma FixedBack(buf: seq<Byte>, p: nat, r: Resource)
    requires ResourceOk(r) && Has(buf, Fixed(r), p)
    ensures p + 10 <= |buf| && Word(buf, p) == r.kind && Word(buf, p + 2) == r.rclass
    ensures Word(buf, p + 4) * 0x1_0000 + Word(buf, p + 6) == r.ttl && Word(buf, p + 8) == |r.data|
  {
    var a, b, e := Word16(r.kind), Word16(r.rclass), Word16(|r.data|);
    var c, d := Word16(r.ttl / 0x1_0000), Word16(r.ttl % 0x1_0000);
    HasPart(buf, p, a + b + c + d, e);
    HasPart(buf, p, a + b + c, d);
    HasPart(buf, p, a + b, c);
    HasPart(buf, p, a, b);
    hide Has, Word, Word16;
    Word16Back(buf, p, r.kind);
    Word16Back(buf, p + 2, r.rclass);
    Word16Back(buf, p + 4, r.ttl / 0x1_0000);
    Word16Back(buf, p + 6, r.ttl % 0x1_0000);
    Word16Back(buf, p + 8, |r.data|);
  }

  /** A record that is read tells what has been encoded. */
  predicate Tells(buf: seq<Byte>, x: Record, r: Resource) {
    x.kind == r.kind && x.rclass == r.rclass && x.ttl == r.ttl && x.len == |r.data| && Has(buf, r.data, x.data)
  }

  lemma ResourceBack(buf: seq<Byte>, p: nat, r: Resource)
    requires ResourceOk(r) && Has(buf, EncodeResource(r), p)
    ensures RecordAt(buf, p, |buf|).Some? && Tells(buf, RecordAt(buf, p, |buf|).value, r)
    ensures forall i | i != QUESTION :: EntryAt(buf, i, p) == Some(p + |EncodeResource(r)|)
  {
    var rest := Fixed(r) + r.data;
    assert EncodeName(r.name) + Fixed(r) + r.data == EncodeName(r.name) + rest;
    NameBack(buf, p, r.name, rest);
    HasPart(buf, p + |EncodeName(r.name)|, Fixed(r), r.data);
    hide SkipName, Word, Fixed, EncodeName;
    FixedBack(buf, p + |EncodeName(r.name)|, r);
  }

  lemma {:induction false} QuestionsBack(buf: seq<Byte>, p: nat, qs: seq<Question>)
    requires AllQuestionsOk(qs) && p <= |buf| && Has(buf, EncodeQuestions(qs), p)
    ensures SectionAt(buf, QUESTION, p, |qs|) == Some(p + |EncodeQuestions(qs)|)
    decreases |qs|
  {
    if qs != [] {
      HasPart(buf, p, EncodeQuestion(qs[0]), EncodeQuestions(qs[1..]));
      QuestionBack(buf, p, qs[0]);
      QuestionsBack(buf, p + |EncodeQuestion(qs[0])|, qs[1..]);
    }
  }

  lemma {:induction false} ResourcesBack(buf: seq<Byte>, section: nat, p: nat, rs: seq<Resource>)
    requires section != QUESTION && AllOk(rs) && p <= |buf| && Has(buf, EncodeAll(rs), p)
    ensures SectionAt(buf, section, p, |rs|) == Some(p + |EncodeAll(rs)|)
    ensures var records := Records(buf, section, p, |rs|);
            forall k | 0 <= k < |rs| :: Tells(buf, records[k], rs[k])
    decreases |rs|
  {
    hide RecordAt, EntryAt, Tells, EncodeResource;
    if rs != [] {
      HasPart(buf, p, EncodeResource(rs[0]), EncodeAll(rs[1..]));
      ResourceBack(buf, p, rs[0]);
      hide Has;
      ResourcesBack(buf, section, p + |EncodeResource(rs[0])|, rs[1..]);
      var records, rest := Records(buf, section, p, |rs|), Records(buf, section, p + |EncodeResource(rs[0])|, |rs| - 1);
      assert records == [RecordAt(buf, p, |buf|).value] + rest;
      forall k | 0 <= k < |rs|
        ensures Tells(buf, records[k], rs[k])
      {
        if k > 0 {
          assert records[k] == rest[k - 1] && rs[k] == rs[1..][k - 1];
        }
      }
    }
  }

  lemma HeaderBack(buf: seq<Byte>, m: Message)
    requires MessageOk(m) && Has(buf, Header(m), 0)
    ensures 12 <= |buf| && Count(buf, 0) == |m.questions|
    ensures forall i | 0 < i < SECTIONS :: Count(buf, i) == |SectionOf(m, i)|
  {
    var head: seq<Byte> := [m.head.0, m.head.1, m.head.2, m.head.3];
    var a, b, c, d := Word16(|m.questions|), Word16(|m.answers|), Word16(|m.authority|), Word16(|m.additional|);
    HasPart(buf, 0, head + a + b + c, d);
    HasPart(buf, 0, head + a + b, c);
    HasPart(buf, 0, head + a, b);
    HasPart(buf, 0, head, a);
    hide Has, Word, Word16;
    Word16Back(buf, 4, |m.questions|);
    Word16Back(buf, 6, |m.answers|);
    Word16Back(buf, 8, |m.authority|);
    Word16Back(buf, 10, |m.additional|);
  }

  /** Where a section of an encoded message begins. */
  function StartOf(m: Message, i: nat): nat
    requires MessageOk(m) && i <= SECTIONS
  {
    if i == 0 then 12
    else if i == 1 then 12 + |EncodeQuestions(m.questions)|
    else StartOf(m, i - 1) + |EncodeAll(SectionOf(m, i - 1))|
  }

  lemma FiveParts(buf: seq<Byte>, h: seq<Byte>, a: seq<Byte>, b: seq<Byte>, c: seq<Byte>, d: seq<Byte>)
    requires Has(buf, h + a + b + c + d, 0)
    ensures Has(buf, h, 0) && Has(buf, a, |h|) && Has(buf, b, |h| + |a|)
    ensures Has(buf, c, |h| + |a| + |b|) && Has(buf, d, |h| + |a| + |b| + |c|)
    ensures |h| + |a| + |b| + |c| + |d| <= |buf|
  {
    HasPart(buf, 0, h + a + b + c, d);
    HasPart(buf, 0, h + a + b, c);
    HasPart(buf, 0, h + a, b);
    HasPart(buf, 0, h, a);
  }

  /** The sections stand where they should. */
  lemma Layout(buf: seq<Byte>, m: Message)
    requires MessageOk(m) && Has(buf, Encode(m), 0)
    ensures Has(buf, Header(m), 0) && Has(buf, EncodeQuestions(m.questions), 12)
    ensures Has(buf, EncodeAll(m.answers), StartOf(m, 1)) && Has(buf, EncodeAll(m.authority), StartOf(m, 2))
    ensures Has(buf, EncodeAll(m.additional), StartOf(m, 3)) && StartOf(m, SECTIONS) <= |buf|
  {
    hide Has, EncodeAll, EncodeQuestions, Header;
    FiveParts(buf, Header(m), EncodeQuestions(m.questions), EncodeAll(m.answers), EncodeAll(m.authority),
              EncodeAll(m.additional));
    assert StartOf(m, 2) == StartOf(m, 1) + |EncodeAll(m.answers)|;
    assert StartOf(m, 3) == StartOf(m, 2) + |EncodeAll(m.authority)|;
    assert StartOf(m, 4) == StartOf(m, 3) + |EncodeAll(m.additional)|;
  }

  /** A section of the message reads back as what it was made of. */
  predicate ReadsBack(buf: seq<Byte>, m: Message, i: nat)
    requires MessageOk(m) && 0 < i < SECTIONS && 12 <= |buf|
  {
    var rs, p := SectionOf(m, i), StartOf(m, i);
    && SectionStart(buf, i) == Some(p) && Count(buf, i) == |rs|
    && SectionAt(buf, i, p, |rs|).Some?
    && forall k | 0 <= k < |rs| :: Tells(buf, Records(buf, i, p, |rs|)[k], rs[k])
  }

  lemma SectionBack(buf: seq<Byte>, m: Message, i: nat)
    requires MessageOk(m) && 0 < i < SECTIONS && 12 <= |buf| && StartOf(m, i) <= |buf|
    requires Has(buf, EncodeAll(SectionOf(m, i)), StartOf(m, i)) && AllOk(SectionOf(m, i))
    requires SectionStart(buf, i) == Some(StartOf(m, i)) && Count(buf, i) == |SectionOf(m, i)|
    ensures ReadsBack(buf, m, i) && SectionStart(buf, i + 1) == Some(StartOf(m, i + 1))
  {
    hide Has, EncodeAll, Tells, Records, Count;
    ResourcesBack(buf, i, StartOf(m, i), SectionOf(m, i));
  }

  /** An encoded message, whatever follows it, is accepted, and its sections read back as
      the resources it was made of. */
  lemma MessageBack(m: Message, trailer: seq<Byte>)
    requires MessageOk(m)
    ensures var buf := Encode(m) + trailer;
            WellFormed(buf) && forall i {:trigger ReadsBack(buf, m, i)} | 0 < i < SECTIONS :: ReadsBack(buf, m, i)
  {
    EncodedBack(Encode(m) + trailer, m);
  }

  lemma EncodedBack(buf: seq<Byte>, m: Message)
    requires MessageOk(m) && Has(buf, Encode(m), 0)
    ensures WellFormed(buf) && forall i {:trigger ReadsBack(buf, m, i)} | 0 < i < SECTIONS :: ReadsBack(buf, m, i)
  {
    hide Has, Encode, Header, EncodeQuestions, EncodeAll, SectionAt, Count, ReadsBack, SectionStart, EncodeResource;
    Layout(buf, m);
    HeaderBack(buf, m);
    Starts(buf, m);
    SectionBack(buf, m, 1);
    SectionBack(buf, m, 2);
    SectionBack(buf, m, 3);
  }

  lemma Starts(buf: seq<Byte>, m: Message)
    requires MessageOk(m) && 12 <= |buf| && StartOf(m, SECTIONS) <= |buf|
    requires Has(buf, EncodeQuestions(m.questions), 12) && Count(buf, 0) == |m.questions|
    ensures SectionStart(buf, 1) == Some(StartOf(m, 1))
    ensures StartOf(m, 1) <= |buf| && StartOf(m, 2) <= |buf| && StartOf(m, 3) <= |buf|
  {
    hide Has, EncodeQuestions, EncodeAll, Count;
    QuestionsBack(buf, 12, m.questions);
    assert StartOf(m, 4) == StartOf(m, 3) + |EncodeAll(SectionOf(m, 3))|;
    assert StartOf(m, 3) == StartOf(m, 2) + |EncodeAll(SectionOf(m, 2))|;
    assert StartOf(m, 2) == StartOf(m, 1) + |EncodeAll(SectionOf(m, 1))|;
    assert SectionStart(buf, 0) == Some(12);
  }

  // ---------------------------------------------------------- nothing else is accepted

  lemma Joins(buf: seq<Byte>, p: nat, q: nat, r: nat)
    requires p <= q <= r <= |buf|
    ensures buf[p..r] == buf[p..q] + buf[q..r]
  {
  }

  /** Every name that is skipped is an encoded one. */
  lemma {:induction false} NameFound(buf: seq<Byte>, p: nat, end: nat) returns (n: Name)
    requires end <= |buf| && SkipName(buf, p, end).Some?
    ensures NameOk(n) && EncodeName(n) == buf[p..SkipName(buf, p, end).value]
    decreases end - p
  {
    if buf[p] == 0 {
      n := Name([], None);
    } else if buf[p] >= 0xc0 {
      n := Name([], Some((buf[p], buf[p + 1])));
    } else {
      var next := p + 1 + buf[p];
      var rest := NameFound(buf, next, end);
      var text := buf[p + 1..next];
      n := Name([text] + rest.labels, rest.pointer);
      assert n.labels[1..] == rest.labels;
      Joins(buf, p, next, SkipName(buf, p, end).value);
      assert buf[p..next] == [|text|] + text;
    }
  }

  lemma WordFound(buf: seq<Byte>, p: nat)
    requires p + 2 <= |buf|
    ensures Word16(Word(buf, p)) == buf[p..p + 2]
  {
    assert Word(buf, p) / 0x100 == buf[p] as int && Word(buf, p) % 0x100 == buf[p + 1] as int;
  }

  lemma QuestionFound(buf: seq<Byte>, p: nat) returns (q: Question)
    requires EntryAt(buf, QUESTION, p).Some?
    ensures QuestionOk(q) && EncodeQuestion(q) == buf[p..EntryAt(buf, QUESTION, p).value]
  {
    hide SkipName, EncodeName, NameOk, Word, Word16;
    var name := NameFound(buf, p, |buf|);
    var d := SkipName(buf, p, |buf|).value;
    q := Question(name, Word(buf, d), Word(buf, d + 2));
    WordFound(buf, d);
    WordFound(buf, d + 2);
    Joins(buf, d, d + 2, d + 4);
    Joins(buf, p, d, d + 4);
  }

  lemma FixedFound(buf: seq<Byte>, d: nat, r: Resource)
    requires d + 10 <= |buf| && ResourceOk(r) && r.kind == Word(buf, d) && r.rclass == Word(buf, d + 2)
    requires r.ttl == Word(buf, d + 4) * 0x1_0000 + Word(buf, d + 6) && |r.data| == Word(buf, d + 8)
    ensures Fixed(r) == buf[d..d + 10]
  {
    hide Word, Word16, NameOk;
    WordFound(buf, d);
    WordFound(buf, d + 2);
    WordFound(buf, d + 4);
    WordFound(buf, d + 6);
    WordFound(buf, d + 8);
    assert r.ttl / 0x1_0000 == Word(buf, d + 4) && r.ttl % 0x1_0000 == Word(buf, d + 6);
    Joins(buf, d, d + 2, d + 4);
    Joins(buf, d, d + 4, d + 6);
    Joins(buf, d, d + 6, d + 8);
    Joins(buf, d, d + 8, d + 10);
  }

  lemma ResourceFound(buf: seq<Byte>, section: nat, p: nat) returns (r: Resource)
    requires section != QUESTION && EntryAt(buf, section, p).Some?
    ensures ResourceOk(r) && EncodeResource(r) == buf[p..EntryAt(buf, section, p).value]
  {
    hide SkipName, EncodeName, NameOk, Word, Fixed;
    var name := NameFound(buf, p, |buf|);
    var d := SkipName(buf, p, |buf|).value;
    var x := RecordAt(buf, p, |buf|).value;
    r := Resource(name, x.kind, x.rclass, x.ttl, buf[x.data..x.Next()]);
    FixedFound(buf, d, r);
    Joins(buf, p, d, d + 10);
    Joins(buf, p, d + 10, x.Next());
  }

  lemma {:induction false} QuestionsFound(buf: seq<Byte>, p: nat, count: nat) returns (qs: seq<Question>)
    requires p <= |buf| && SectionAt(buf, QUESTION, p, count).Some?
    ensures |qs| == count && AllQuestionsOk(qs)
    ensures EncodeQuestions(qs) == buf[p..SectionAt(buf, QUESTION, p, count).value]
    decreases count
  {
    hide EntryAt, QuestionOk, EncodeQuestion;
    if count == 0 {
      qs := [];
    } else {
      var q := QuestionFound(buf, p);
      var next := EntryAt(buf, QUESTION, p).value;
      var rest := QuestionsFound(buf, next, count - 1);
      qs := [q] + rest;
      assert qs[1..] == rest;
      Joins(buf, p, next, SectionAt(buf, QUESTION, p, count).value);
    }
  }

  lemma {:induction false} ResourcesFound(buf: seq<Byte>, section: nat, p: nat, count: nat) returns (rs: seq<Resource>)
    requires section != QUESTION && p <= |buf| && SectionAt(buf, section, p, count).Some?
    ensures |rs| == count && AllOk(rs) && EncodeAll(rs) == buf[p..SectionAt(buf, section, p, count).value]
    decreases count
  {
    hide EntryAt, ResourceOk, EncodeResource;
    if count == 0 {
      rs := [];
    } else {
      var r := ResourceFound(buf, section, p);
      var next := EntryAt(buf, section, p).value;
      var rest := ResourcesFound(buf, section, next, count - 1);
      rs := [r] + rest;
      assert rs[1..] == rest;
      Joins(buf, p, next, SectionAt(buf, section, p, count).value);
    }
  }

  /** A buffer that is accepted is an encoded message, with something behind it or not. */
  lemma MessageFound(buf: seq<Byte>) returns (m: Message, trailer: seq<Byte>)
    requires WellFormed(buf)
    ensures MessageOk(m) && buf == Encode(m) + trailer
  {
    hide SectionAt, SectionStart, Count, AllOk, AllQuestionsOk, EncodeAll, EncodeQuestions, Word;
    StartThere(buf, 1);
    StartThere(buf, 2);
    StartThere(buf, 3);
    StartThere(buf, 4);
    var e1, e2 := SectionStart(buf, 1).value, SectionStart(buf, 2).value;
    var e3, e4 := SectionStart(buf, 3).value, SectionStart(buf, 4).value;
    var qs := QuestionsFound(buf, 12, Count(buf, 0));
    var a := ResourcesFound(buf, 1, e1, Count(buf, 1));
    var b := ResourcesFound(buf, 2, e2, Count(buf, 2));
    var c := ResourcesFound(buf, 3, e3, Count(buf, 3));
    m := Message((buf[0], buf[1], buf[2], buf[3]), qs, a, b, c);
    trailer := buf[e4..];
    CountsBound(buf);
    HeaderFound(buf, m);
    Joins(buf, 0, 12, e1);
    Joins(buf, 0, e1, e2);
    Joins(buf, 0, e2, e3);
    Joins(buf, 0, e3, e4);
    Joins(buf, 0, e4, |buf|);
    assert buf[0..|buf|] == buf;
  }

  lemma StartThere(buf: seq<Byte>, i: nat)
    requires WellFormed(buf) && 0 < i <= SECTIONS
    ensures SectionStart(buf, 0) == Some(12) && SectionStart(buf, i - 1).Some? && SectionStart(buf, i).Some?
    ensures SectionStart(buf, i) == SectionAt(buf, i - 1, SectionStart(buf, i - 1).value, Count(buf, i - 1))
  {
    hide SectionAt, Count;
    if SectionStart(buf, i - 1).None? {
      StartsNone(buf, i - 1, SECTIONS);
    } else if SectionStart(buf, i).None? {
      StartsNone(buf, i, SECTIONS);
    }
  }

  lemma CountsBound(buf: seq<Byte>)
    requires 12 <= |buf|
    ensures Count(buf, 0) < 0x1_0000 && Count(buf, 1) < 0x1_0000 && Count(buf, 2) < 0x1_0000 && Count(buf, 3) < 0x1_0000
  {
  }

  lemma HeaderFound(buf: seq<Byte>, m: Message)
    requires 12 <= |buf| && MessageOk(m) && m.head == (buf[0], buf[1], buf[2], buf[3])
    requires |m.questions| == Count(buf, 0) && |m.answers| == Count(buf, 1)
    requires |m.authority| == Count(buf, 2) && |m.additional| == Count(buf, 3)
    ensures Header(m) == buf[0..12]
  {
    hide Word, Word16, AllOk, AllQuestionsOk;
    WordFound(buf, 4);
    WordFound(buf, 6);
    WordFound(buf, 8);
    WordFound(buf, 10);
    Joins(buf, 0, 4, 6);
    Joins(buf, 0, 6, 8);
    Joins(buf, 0, 8, 10);
    Joins(buf, 0, 10, 12);
  }

  /** The buffer begins with an encoded message. */
  predicate Begins(buf: seq<Byte>, m: Message, trailer: seq<Byte>) {
    MessageOk(m) && buf == Encode(m) + trailer
  }

  /** Exactly the messages of section 4.1 of RFC 1035 are accepted, with any bytes behind them. */
  lemma AcceptsExactly(buf: seq<Byte>)
    ensures WellFormed(buf) <==> exists m, trailer :: Begins(buf, m, trailer)
  {
    hide WellFormed, MessageOk, Encode;
    if WellFormed(buf) {
      var m, trailer := MessageFound(buf);
      assert Begins(buf, m, trailer);
    }
    forall m, trailer | Begins(buf, m, trailer)
      ensures WellFormed(buf)
    {
      MessageBack(m, trailer);
    }
  }
}
