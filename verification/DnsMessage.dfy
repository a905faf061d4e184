/** DNS messages as values: the wire format of RFC 1035 sections 4.1.1 to 4.1.4
    as a serializer, a reader that undoes it, and the CAA records of RFC 8659
    section 4.1 that a message carries. */
module DnsMessage {
  import opened Bytes

  /** Labels ended by the root or by a compression pointer. */
  datatype Name =
    | Root
    | Pointer(hi: byte, lo: byte)
    | Label(text: bytes, rest: Name)

  datatype Question = Question(name: Name, qtype: u16, qclass: u16)

  datatype Answer = Answer(name: Name, rrtype: u16, rrclass: u16, ttl: u32, rdata: bytes)

  datatype Message = Message(id: u16, flags: u16, nsCount: u16, arCount: u16,
                             questions: seq<Question>, answers: seq<Answer>, trailing: bytes)

  datatype CAARecord = CAARecord(flag: byte, tag: bytes, value: bytes)

  datatype DnsError =
    | ShortResponse
    | IDMismatch
    | ResponseCode(rcode: int)
    | ShortName
    | ShortPointer
    | UnsupportedLabel
    | ShortQuestion
    | ShortAnswer
    | ShortRData

  const TYPE_CAA: u16 := 257
  const CLASS_IN: u16 := 1

  predicate ValidName(n: Name) {
    match n
    case Root => true
    case Pointer(hi, _) => hi >= 0xC0
    case Label(text, rest) => 1 <= |text| <= 63 && ValidName(rest)
  }

  predicate ValidMessage(m: Message) {
    && |m.questions| < 0x1_0000
    && |m.answers| < 0x1_0000
    && (forall q | q in m.questions :: ValidName(q.name))
    && (forall a | a in m.answers :: ValidAnswer(a))
  }

  predicate ValidAnswer(a: Answer) {
    ValidName(a.name) && |a.rdata| < 0x1_0000
  }

  // ----- Serializer -----

  function NameBytes(n: Name): (s: bytes)
    requires ValidName(n)
    ensures |s| >= 1
  {
    match n
    case Root => [0]
    case Pointer(hi, lo) => [hi, lo]
    case Label(text, rest) => [|text|] + text + NameBytes(rest)
  }

  function QuestionBytes(q: Question): bytes
    requires ValidName(q.name)
  {
    NameBytes(q.name) + (PutU16(q.qtype) + PutU16(q.qclass))
  }

  /** The ten fixed bytes between an answer's owner name and its RDATA. */
  function AnswerFixed(a: Answer): (s: bytes)
    requires |a.rdata| < 0x1_0000
    ensures |s| == 10
  {
    PutU16(a.rrtype) + PutU16(a.rrclass) + PutU32(a.ttl) + PutU16(|a.rdata|)
  }

  function AnswerBytes(a: Answer): bytes
    requires ValidAnswer(a)
  {
    NameBytes(a.name) + (AnswerFixed(a) + a.rdata)
  }

  function QuestionsBytes(qs: seq<Question>): bytes
    requires forall q | q in qs :: ValidName(q.name)
  {
    if qs == [] then [] else QuestionBytes(qs[0]) + QuestionsBytes(qs[1..])
  }

  function AnswersBytes(answers: seq<Answer>): bytes
    requires forall a | a in answers :: ValidAnswer(a)
  {
    if answers == [] then [] else AnswerBytes(answers[0]) + AnswersBytes(answers[1..])
  }

  function HeaderBytes(m: Message): (s: bytes)
    requires |m.questions| < 0x1_0000 && |m.answers| < 0x1_0000
    ensures |s| == 12
  {
    PutU16(m.id) + PutU16(m.flags) + PutU16(|m.questions|) + PutU16(|m.answers|)
    + PutU16(m.nsCount) + PutU16(m.arCount)
  }

  function MessageBytes(m: Message): bytes
    requires ValidMessage(m)
  {
    HeaderBytes(m) + (QuestionsBytes(m.questions) + (AnswersBytes(m.answers) + m.trailing))
  }

  // ----- Reader -----

  /** A value read from the front of a byte string, and the bytes after it. */
  datatype Read<+T> = Read(value: T, rest: bytes)

  function ReadName(s: bytes): Outcome<Read<Name>, DnsError>
    decreases |s|
  {
    if s == [] then Err(ShortName)
    else if s[0] >= 0xC0 then
      if |s| < 2 then Err(ShortPointer) else Ok(Read(Pointer(s[0], s[1]), s[2..]))
    else if s[0] >= 0x40 then Err(UnsupportedLabel)
    else if s[0] == 0 then Ok(Read(Root, s[1..]))
    else if |s| < 1 + s[0] then Err(ShortName)
    else
      match ReadName(s[1 + s[0]..])
      case Err(e) => Err(e)
      case Ok(r) => Ok(Read(Label(s[1..1 + s[0]], r.value), r.rest))
  }

  function ReadQuestion(s: bytes): Outcome<Read<Question>, DnsError> {
    match ReadName(s)
    case Err(e) => Err(e)
    case Ok(n) =>
      if |n.rest| < 4 then Err(ShortQuestion)
      else Ok(Read(Question(n.value, U16(n.rest, 0), U16(n.rest, 2)), n.rest[4..]))
  }

  function ReadAnswer(s: bytes): Outcome<Read<Answer>, DnsError> {
    match ReadName(s)
    case Err(e) => Err(e)
    case Ok(n) =>
      var f := n.rest;
      if |f| < 10 then Err(ShortAnswer)
      else if |f| < 10 + U16(f, 8) then Err(ShortRData)
      else
        var end := 10 + U16(f, 8);
        Ok(Read(Answer(n.value, U16(f, 0), U16(f, 2), U32(f, 4), f[10..end]), f[end..]))
  }

  function ReadQuestions(s: bytes, count: nat): (r: Outcome<Read<seq<Question>>, DnsError>)
    ensures r.Ok? ==> |r.value.value| == count
    decreases count
  {
    if count == 0 then Ok(Read([], s))
    else
      match ReadQuestion(s)
      case Err(e) => Err(e)
      case Ok(q) => PrependQuestions([q.value], ReadQuestions(q.rest, count - 1))
  }

  function PrependQuestions(qs: seq<Question>, r: Outcome<Read<seq<Question>>, DnsError>)
    : Outcome<Read<seq<Question>>, DnsError>
  {
    match r
    case Err(e) => Err(e)
    case Ok(more) => Ok(Read(qs + more.value, more.rest))
  }

  function ReadAnswers(s: bytes, count: nat): (r: Outcome<Read<seq<Answer>>, DnsError>)
    ensures r.Ok? ==> |r.value.value| == count
    decreases count
  {
    if count == 0 then Ok(Read([], s))
    else
      match ReadAnswer(s)
      case Err(e) => Err(e)
      case Ok(a) => PrependAnswers([a.value], ReadAnswers(a.rest, count - 1))
  }

  function PrependAnswers(answers: seq<Answer>, r: Outcome<Read<seq<Answer>>, DnsError>)
    : Outcome<Read<seq<Answer>>, DnsError>
  {
    match r
    case Err(e) => Err(e)
    case Ok(more) => Ok(Read(answers + more.value, more.rest))
  }

  function ReadMessage(s: bytes): Outcome<Message, DnsError> {
    if |s| < 12 then Err(ShortResponse)
    else
      match ReadQuestions(s[12..], U16(s, 4))
      case Err(e) => Err(e)
      case Ok(qs) =>
        match ReadAnswers(qs.rest, U16(s, 6))
        case Err(e) => Err(e)
        case Ok(an) =>
          Ok(Message(U16(s, 0), U16(s, 2), U16(s, 8), U16(s, 10), qs.value, an.value, an.rest))
  }

  // ----- Reading undoes serializing -----

  lemma {:induction false} NameRoundTrip(n: Name, rest: bytes)
    requires ValidName(n)
    ensures ReadName(NameBytes(n) + rest) == Ok(Read(n, rest))
  {
    var s := NameBytes(n) + rest;
    match n {
      case Root =>
        assert s[1..] == rest;
      case Pointer(hi, lo) =>
        assert s[2..] == rest;
      case Label(text, more) =>
        NameRoundTrip(more, rest);
        assert s[1..1 + |text|] == text;
        assert s[1 + |text|..] == NameBytes(more) + rest;
    }
  }

  lemma QuestionRoundTrip(q: Question, rest: bytes)
    requires ValidName(q.name)
    ensures ReadQuestion(QuestionBytes(q) + rest) == Ok(Read(q, rest))
  {
    var fixed := PutU16(q.qtype) + PutU16(q.qclass);
    NameRoundTrip(q.name, fixed + rest);
    assert QuestionBytes(q) + rest == NameBytes(q.name) + (fixed + rest);
    assert (fixed + rest)[4..] == rest;
  }

  lemma AnswerRoundTrip(a: Answer, rest: bytes)
    requires ValidAnswer(a)
    ensures ReadAnswer(AnswerBytes(a) + rest) == Ok(Read(a, rest))
  {
    var fixed := AnswerFixed(a);
    var f := fixed + (a.rdata + rest);
    NameRoundTrip(a.name, f);
    assert AnswerBytes(a) + rest == NameBytes(a.name) + f;
    hide ReadName, NameBytes;
    AnswerFixedFields(a, f);
    assert f[10..] == a.rdata + rest;
    assert f[10..10 + |a.rdata|] == f[10..][..|a.rdata|] == a.rdata;
    assert f[10 + |a.rdata|..] == f[10..][|a.rdata|..] == rest;
  }

  lemma AnswerFixedFields(a: Answer, f: bytes)
    requires |a.rdata| < 0x1_0000 && |f| >= 10 && f[..10] == AnswerFixed(a)
    ensures U16(f, 0) == a.rrtype && U16(f, 2) == a.rrclass && U32(f, 4) == a.ttl && U16(f, 8) == |a.rdata|
  {
  }

  lemma {:induction false} QuestionsRoundTrip(qs: seq<Question>, rest: bytes)
    requires forall q | q in qs :: ValidName(q.name)
    ensures ReadQuestions(QuestionsBytes(qs) + rest, |qs|) == Ok(Read(qs, rest))
  {
    if qs == [] {
      assert [] + rest == rest;
    } else {
      var q, more := qs[0], qs[1..];
      assert [q] + more == qs;
      ConsQuestions(q, more, rest);
      QuestionRoundTrip(q, QuestionsBytes(more) + rest);
      QuestionsRoundTrip(more, rest);
      hide ReadQuestion, QuestionBytes, QuestionsBytes;
    }
  }

  lemma ConsQuestions(q: Question, more: seq<Question>, rest: bytes)
    requires ValidName(q.name) && forall x | x in more :: ValidName(x.name)
    ensures forall x | x in [q] + more :: ValidName(x.name)
    ensures QuestionsBytes([q] + more) + rest == QuestionBytes(q) + (QuestionsBytes(more) + rest)
  {
  }

  lemma ConsAnswers(a: Answer, more: seq<Answer>, rest: bytes)
    requires ValidAnswer(a) && forall x | x in more :: ValidAnswer(x)
    ensures forall x | x in [a] + more :: ValidAnswer(x)
    ensures AnswersBytes([a] + more) + rest == AnswerBytes(a) + (AnswersBytes(more) + rest)
  {
  }

  lemma {:induction false} AnswersRoundTrip(answers: seq<Answer>, rest: bytes)
    requires forall a | a in answers :: ValidAnswer(a)
    ensures ReadAnswers(AnswersBytes(answers) + rest, |answers|) == Ok(Read(answers, rest))
  {
    if answers == [] {
      assert [] + rest == rest;
    } else {
      var a, more := answers[0], answers[1..];
      assert [a] + more == answers;
      ConsAnswers(a, more, rest);
      AnswerRoundTrip(a, AnswersBytes(more) + rest);
      AnswersRoundTrip(more, rest);
      hide ReadAnswer, AnswerBytes, AnswersBytes;
    }
  }

  lemma MessageRoundTrip(m: Message)
    requires ValidMessage(m)
    ensures ReadMessage(MessageBytes(m)) == Ok(m)
  {
    var s := MessageBytes(m);
    QuestionsRoundTrip(m.questions, AnswersBytes(m.answers) + m.trailing);
    AnswersRoundTrip(m.answers, m.trailing);
    assert s[12..] == QuestionsBytes(m.questions) + (AnswersBytes(m.answers) + m.trailing);
    HeaderFields(m, s);
  }

  lemma HeaderFields(m: Message, s: bytes)
    requires |m.questions| < 0x1_0000 && |m.answers| < 0x1_0000
    requires |s| >= 12 && s[..12] == HeaderBytes(m)
    ensures U16(s, 0) == m.id && U16(s, 2) == m.flags
    ensures U16(s, 4) == |m.questions| && U16(s, 6) == |m.answers|
    ensures U16(s, 8) == m.nsCount && U16(s, 10) == m.arCount
  {
  }

  // ----- Serializing undoes reading -----

  lemma {:induction false} ReadNameSound(s: bytes)
    requires ReadName(s).Ok?
    ensures var r := ReadName(s).value; ValidName(r.value) && s == NameBytes(r.value) + r.rest
    decreases |s|
  {
    if 0 < s[0] < 0x40 {
      ReadNameSound(s[1 + s[0]..]);
      assert s == [s[0]] + s[1..1 + s[0]] + s[1 + s[0]..];
    }
  }

  lemma ReadQuestionSound(s: bytes)
    requires ReadQuestion(s).Ok?
    ensures var r := ReadQuestion(s).value; ValidName(r.value.name) && s == QuestionBytes(r.value) + r.rest
  {
    hide ReadName, NameBytes, PutU16;
    ReadNameSound(s);
    var n := ReadName(s).value;
    QuestionFixedOf(n.rest);
    Regroup(NameBytes(n.value), n.rest, 0, 4);
    assert n.rest[..0] + n.rest[0..4] == n.rest[..4];
  }

  lemma QuestionFixedOf(f: bytes)
    requires |f| >= 4
    ensures PutU16(U16(f, 0)) + PutU16(U16(f, 2)) == f[..4]
  {
  }

  lemma ReadAnswerSound(s: bytes)
    requires ReadAnswer(s).Ok?
    ensures var r := ReadAnswer(s).value; ValidAnswer(r.value) && s == AnswerBytes(r.value) + r.rest
  {
    ReadNameSound(s);
    var n, r := ReadName(s).value, ReadAnswer(s).value;
    AnswerFixedOf(n.rest, r.value);
    Regroup(NameBytes(n.value), n.rest, 10, 10 + U16(n.rest, 8));
  }

  lemma Regroup(name: bytes, f: bytes, i: nat, j: nat)
    requires i <= j <= |f|
    ensures name + f == name + (f[..i] + f[i..j]) + f[j..]
  {
  }

  lemma AnswerFixedOf(f: bytes, a: Answer)
    requires |f| >= 10 && |a.rdata| == U16(f, 8)
    requires a.rrtype == U16(f, 0) && a.rrclass == U16(f, 2) && a.ttl == U32(f, 4)
    ensures AnswerFixed(a) == f[..10]
  {
    PutU16OfU16(f, 0);
    PutU16OfU16(f, 2);
    PutU32OfU32(f, 4);
    PutU16OfU16(f, 8);
    assert f[..10] == f[0..2] + f[2..4] + f[4..8] + f[8..10];
  }

  lemma {:induction false} ReadQuestionsSound(s: bytes, count: nat)
    requires ReadQuestions(s, count).Ok?
    ensures var r := ReadQuestions(s, count).value;
            (forall q | q in r.value :: ValidName(q.name)) && s == QuestionsBytes(r.value) + r.rest
    decreases count
  {
    if count > 0 {
      hide ReadQuestion, QuestionBytes;
      var q := ReadQuestion(s).value;
      var more := ReadQuestions(q.rest, count - 1).value;
      ReadQuestionSound(s);
      ReadQuestionsSound(q.rest, count - 1);
      ConsQuestions(q.value, more.value, more.rest);
    }
  }

  lemma {:induction false} ReadAnswersSound(s: bytes, count: nat)
    requires ReadAnswers(s, count).Ok?
    ensures var r := ReadAnswers(s, count).value;
            (forall a | a in r.value :: ValidAnswer(a)) && s == AnswersBytes(r.value) + r.rest
    decreases count
  {
    if count > 0 {
      hide ReadAnswer, AnswerBytes;
      var a := ReadAnswer(s).value;
      var more := ReadAnswers(a.rest, count - 1).value;
      ReadAnswerSound(s);
      ReadAnswersSound(a.rest, count - 1);
      ConsAnswers(a.value, more.value, more.rest);
    }
  }

  lemma ReadMessageSound(s: bytes)
    requires ReadMessage(s).Ok?
    ensures var m := ReadMessage(s).value; ValidMessage(m) && MessageBytes(m) == s
  {
    var m := ReadMessage(s).value;
    var qs := ReadQuestions(s[12..], U16(s, 4)).value;
    ReadQuestionsSound(s[12..], U16(s, 4));
    ReadAnswersSound(qs.rest, U16(s, 6));
    HeaderOfFields(m, s);
    assert s == s[..12] + s[12..];
    assert s[12..] == QuestionsBytes(m.questions) + (AnswersBytes(m.answers) + m.trailing);
  }

  lemma HeaderOfFields(m: Message, s: bytes)
    requires |m.questions| < 0x1_0000 && |m.answers| < 0x1_0000
    requires |s| >= 12
    requires U16(s, 0) == m.id && U16(s, 2) == m.flags
    requires U16(s, 4) == |m.questions| && U16(s, 6) == |m.answers|
    requires U16(s, 8) == m.nsCount && U16(s, 10) == m.arCount
    ensures HeaderBytes(m) == s[..12]
  {
    PutU16OfU16(s, 0);
    PutU16OfU16(s, 2);
    PutU16OfU16(s, 4);
    PutU16OfU16(s, 6);
    PutU16OfU16(s, 8);
    PutU16OfU16(s, 10);
    assert s[..12] == s[0..2] + s[2..4] + s[4..6] + s[6..8] + s[8..10] + s[10..12];
  }

  /** The reader accepts exactly the serializations, so no two messages share one. */
  lemma SerializationIsUnique(s: bytes, m: Message)
    requires ValidMessage(m)
    ensures MessageBytes(m) == s <==> ReadMessage(s) == Ok(m)
  {
    MessageRoundTrip(m);
    if ReadMessage(s) == Ok(m) {
      ReadMessageSound(s);
    }
  }

  /** A message without trailing bytes cannot be cut short and still be read. */
  lemma ProperPrefixIsUnreadable(m: Message, cut: nat)
    requires ValidMessage(m) && m.trailing == []
    requires cut < |MessageBytes(m)|
    ensures ReadMessage(MessageBytes(m)[..cut]).Err?
  {
    var s := MessageBytes(m);
    hide ReadMessage, MessageBytes;
    MessageRoundTrip(m);
    assert s == s[..cut] + s[cut..];
    if ReadMessage(s[..cut]).Ok? {
      ReadMessageSound(s[..cut]);
      PaddedRead(ReadMessage(s[..cut]).value, s[cut..]);
    }
  }

  lemma PaddedRead(m: Message, more: bytes)
    requires ValidMessage(m)
    ensures ReadMessage(MessageBytes(m) + more) == Ok(m.(trailing := m.trailing + more))
  {
    hide ReadMessage, MessageBytes;
    TrailingBytes(m, more);
    MessageRoundTrip(m.(trailing := m.trailing + more));
  }

  lemma TrailingBytes(m: Message, more: bytes)
    requires ValidMessage(m)
    ensures var padded := m.(trailing := m.trailing + more);
            ValidMessage(padded) && MessageBytes(padded) == MessageBytes(m) + more
  {
  }

  // ----- CAA records -----

  /** A record that RFC 8659 section 4.1 can carry: a tag of 1 to 255 bytes. */
  predicate ValidRecord(r: CAARecord) {
    1 <= |r.tag| <= 255
  }

  /** RFC 8659 section 4.1: flags, tag length, tag, value. */
  function CAARData(r: CAARecord): bytes
    requires ValidRecord(r)
  {
    [r.flag, |r.tag|] + r.tag + r.value
  }

  /** Parses RDATA exactly when it is the framing of some record, and returns that record. */
  function ParseCAARData(data: bytes): (r: Option<CAARecord>)
    ensures r.Some? ==> ValidRecord(r.value) && CAARData(r.value) == data
    ensures forall rec | ValidRecord(rec) :: CAARData(rec) == data ==> r == Some(rec)
  {
    if |data| < 2 then None
    else
      var tagLen := data[1];
      if tagLen == 0 || 2 + tagLen > |data| then None
      else
        assert forall rec | ValidRecord(rec) && CAARData(rec) == data ::
            rec.flag == data[0] && rec.tag == data[2..2 + tagLen] && rec.value == data[2 + tagLen..];
        Some(CAARecord(data[0], data[2..2 + tagLen], data[2 + tagLen..]))
  }

  function RecordOf(a: Answer): Option<CAARecord> {
    if a.rrtype == TYPE_CAA && a.rrclass == CLASS_IN then ParseCAARData(a.rdata) else None
  }

  /** The CAA records among `answers`, in order. */
  function CAARecords(answers: seq<Answer>): seq<CAARecord> {
    if answers == [] then []
    else
      var rest := CAARecords(answers[1..]);
      match RecordOf(answers[0]) case Some(r) => [r] + rest case None => rest
  }

  // ----- Sizes -----

  lemma {:induction false} QuestionsSize(qs: seq<Question>)
    requires forall q | q in qs :: ValidName(q.name)
    ensures |QuestionsBytes(qs)| >= 5 * |qs|
  {
    if qs != [] { QuestionsSize(qs[1..]); }
  }

  lemma {:induction false} AnswersSize(answers: seq<Answer>)
    requires forall a | a in answers :: ValidAnswer(a)
    ensures |AnswersBytes(answers)| >= 11 * |answers|
    ensures |AnswersBytes(answers)| >= 14 * |CAARecords(answers)|
  {
    if answers != [] { AnswersSize(answers[1..]); }
  }
}
