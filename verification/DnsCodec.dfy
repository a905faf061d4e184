/** The hand-written DNS encoder and offset-driven parser of
    internal/checker/dns.go, proved against the messages of DnsMessage. */
module DnsCodec {
  import opened Bytes
  import opened DnsMessage

  datatype NameError = EmptyName | InvalidLabel(part: bytes)

  const RECURSION_DESIRED: u16 := 0x0100

  /** The masks of the source read as ranges: `length&0xc0` against 0xc0 and 0. */
  lemma MasksAreRanges(length: bv8)
    ensures length & 0xC0 == 0xC0 <==> length >= 0xC0
    ensures length & 0xC0 != 0 <==> length >= 0x40
  {
  }

  // ----- Names -----

  /** What both the encoder and the climb start from: spaces trimmed, then dots, once each. */
  function Trimmed(host: bytes): bytes {
    Trim(TrimSpace(host), {DOT})
  }

  function Labels(host: bytes): seq<bytes> {
    Split(Trimmed(host), DOT)
  }

  predicate FitsLabel(part: bytes) {
    1 <= |part| <= 63
  }

  /** Whether `host` can be put on the wire. */
  predicate Encodable(host: bytes) {
    Trimmed(host) != [] && forall p | p in Labels(host) :: FitsLabel(p)
  }

  /** What a host comes to before it is taken apart: white space off both ends,
      then dots off both ends, and no white space after that. */
  lemma SpacesThenDots(host: bytes) returns (front: bytes, mid: bytes, back: bytes, left: bytes, right: bytes)
    ensures host == front + mid + back && AllSpace(front) && AllSpaceBackwards(back)
    ensures SpacePrefix(mid) == 0 && SpaceSuffix(mid) == 0
    ensures mid == left + Trimmed(host) + right && forall b | b in left + right :: b == '.' as int
    ensures var s := Trimmed(host); s != [] ==> s[0] != '.' as int && s[|s| - 1] != '.' as int
  {
    front, back := TrimSpaceExactly(host);
    mid := TrimSpace(host);
    left, right := TrimExactly(mid, {DOT});
  }

  /** What can be sent: a trimmed host whose parts between dots have 1 to 63 bytes each. */
  lemma EncodableExactly(host: bytes)
    ensures Encodable(host) <==>
      Trimmed(host) != [] && forall part | part in Split(Trimmed(host), '.' as int) :: 1 <= |part| <= 63
  {
    assert Labels(host) == Split(Trimmed(host), '.' as int);
    assert forall part :: FitsLabel(part) <==> 1 <= |part| <= 63;
    hide Trimmed, Split, Labels;
  }

  /** The name made of `parts`, ended by `end`. */
  function NameOf(parts: seq<bytes>, end: Name): (n: Name)
    ensures ValidName(end) && (forall p | p in parts :: FitsLabel(p)) ==> ValidName(n)
  {
    if parts == [] then end
    else
      assert (forall p | p in parts :: FitsLabel(p)) ==> FitsLabel(parts[0]);
      Label(parts[0], NameOf(parts[1..], end))
  }

  function LabelsOf(n: Name): seq<bytes> {
    match n
    case Label(text, rest) => [text] + LabelsOf(rest)
    case _ => []
  }

  /** Why `host` cannot be put on the wire: it is empty, or its first misfit label. */
  function NameErrorOf(host: bytes): NameError
    requires !Encodable(host)
  {
    if Trimmed(host) == [] then EmptyName else InvalidLabel(FirstMisfit(Labels(host)))
  }

  function FirstMisfit(parts: seq<bytes>): (part: bytes)
    requires exists p | p in parts :: !FitsLabel(p)
    ensures part in parts && !FitsLabel(part)
  {
    if FitsLabel(parts[0]) then FirstMisfit(parts[1..]) else parts[0]
  }

  method EncodeDNSName(host: bytes) returns (r: Outcome<bytes, NameError>)
    ensures r == if Encodable(host) then Ok(NameBytes(NameOf(Labels(host), Root))) else Err(NameErrorOf(host))
  {
    var trimmed := Trim(TrimSpace(host), {DOT});
    if trimmed == [] {
      return Err(EmptyName);
    }
    var parts := Split(trimmed, DOT);
    var out: bytes := [];
    for i := 0 to |parts|
      invariant forall p | p in parts[..i] :: FitsLabel(p)
      invariant out + [0] == NameBytes(NameOf(parts[..i], Root))
    {
      var part := parts[i];
      if part == [] || |part| > 63 {
        assert part in Labels(host);
        FirstMisfitAt(parts, i);
        return Err(InvalidLabel(part));
      }
      assert parts[..i + 1] == parts[..i] + [part];
      NameBytesAppend(parts[..i], part, out);
      out := out + [|part|];
      out := out + part;
    }
    assert parts[..|parts|] == parts;
    out := out + [0];
    return Ok(out);
  }

  lemma {:induction false} FirstMisfitAt(parts: seq<bytes>, i: nat)
    requires i < |parts| && !FitsLabel(parts[i]) && forall p | p in parts[..i] :: FitsLabel(p)
    ensures parts[i] in parts && FirstMisfit(parts) == parts[i]
  {
    if i > 0 {
      assert parts[..i][0] == parts[0];
      assert parts[1..][..i - 1] == parts[..i][1..];
      FirstMisfitAt(parts[1..], i - 1);
    }
  }

  lemma {:induction false} NameBytesAppend(parts: seq<bytes>, part: bytes, out: bytes)
    requires FitsLabel(part) && forall p | p in parts :: FitsLabel(p)
    requires out + [0] == NameBytes(NameOf(parts, Root))
    ensures out + [|part|] + part + [0] == NameBytes(NameOf(parts + [part], Root))
  {
    if parts == [] {
      assert (out + [0])[..|out|] == out;
      assert out == [];
      assert NameOf([part], Root) == Label(part, Root);
    } else {
      var front := [|parts[0]|] + parts[0];
      var more := NameBytes(NameOf(parts[1..], Root));
      assert out + [0] == front + more;
      var tail := out[|front|..];
      assert out[..|front|] == (out + [0])[..|front|] == front;
      assert tail + [0] == (out + [0])[|front|..] == more;
      assert out == front + tail;
      NameBytesAppend(parts[1..], part, tail);
      assert (parts + [part])[1..] == parts[1..] + [part];
    }
  }

  /** The encoded name is two bytes longer than the trimmed host: a length byte
      stands in for each dot, one more leads, and the root ends it. */
  lemma {:induction false} EncodedLength(parts: seq<bytes>)
    requires |parts| > 0 && forall p | p in parts :: FitsLabel(p)
    ensures |NameBytes(NameOf(parts, Root))| == |Join(parts, [DOT])| + 2
  {
    if |parts| == 1 {
      assert NameOf(parts, Root) == Label(parts[0], Root) by { assert parts[1..] == []; }
    } else {
      EncodedLength(parts[1..]);
    }
  }

  lemma {:induction false} LabelsOfNameOf(parts: seq<bytes>)
    ensures LabelsOf(NameOf(parts, Root)) == parts
  {
    if parts != [] { LabelsOfNameOf(parts[1..]); }
  }

  /** Reading an encoded name, wherever it stands, and joining its labels gives back the trimmed host. */
  lemma DecodedNameIsTrimmedHost(host: bytes, rest: bytes)
    requires Encodable(host)
    ensures var name := NameOf(Labels(host), Root);
            && ReadName(NameBytes(name) + rest) == Ok(Read(name, rest))
            && Join(LabelsOf(name), [DOT]) == Trimmed(host)
            && |NameBytes(name)| == |Trimmed(host)| + 2
  {
    NameRoundTrip(NameOf(Labels(host), Root), rest);
    LabelsOfNameOf(Labels(host));
    EncodedLength(Labels(host));
  }

  /** Two hosts encode alike only if they trim alike. */
  lemma EncodingIsInjective(a: bytes, b: bytes)
    requires Encodable(a) && Encodable(b)
    ensures NameBytes(NameOf(Labels(a), Root)) == NameBytes(NameOf(Labels(b), Root)) <==> Trimmed(a) == Trimmed(b)
  {
    DecodedNameIsTrimmedHost(a, []);
    DecodedNameIsTrimmedHost(b, []);
  }

  /** The outcome of stepping over a name: what follows it, or why there is none. */
  function AfterName(s: bytes): Outcome<bytes, DnsError> {
    match ReadName(s)
    case Err(e) => Err(e)
    case Ok(r) => Ok(r.rest)
  }

  /** Placed inside any larger buffer, an encoded name is skipped in exactly its own length. */
  lemma EncodedNameIsSkipped(before: bytes, host: bytes, after: bytes, end: nat)
    requires Encodable(host)
    ensures var msg := before + NameBytes(NameOf(Labels(host), Root)) + after;
            end <= |msg| ==>
              (AfterName(Drop(msg, |before|)) == Ok(msg[end..]) <==> end == |before| + |Trimmed(host)| + 2)
  {
    var name := NameBytes(NameOf(Labels(host), Root));
    var msg := before + name + after;
    DecodedNameIsTrimmedHost(host, after);
    assert Drop(msg, |before|) == name + after;
    assert msg[|before| + |name|..] == after;
  }

  method SkipDNSName(msg: bytes, start: nat) returns (r: Outcome<nat, DnsError>)
    ensures r.Ok? ==> start < r.value <= |msg| && AfterName(Drop(msg, start)) == Ok(msg[r.value..])
    ensures r.Err? ==> AfterName(Drop(msg, start)) == Err(r.error)
  {
    var offset := start;
    while true
      invariant start <= offset
      invariant AfterName(Drop(msg, start)) == AfterName(Drop(msg, offset))
      decreases |msg| - offset
    {
      if offset >= |msg| {
        return Err(ShortName);
      }
      ghost var here := msg[offset..];
      var length := msg[offset];
      if length >= 0xC0 {
        if offset + 1 >= |msg| {
          return Err(ShortPointer);
        }
        assert here[2..] == msg[offset + 2..];
        return Ok(offset + 2);
      }
      if length >= 0x40 {
        return Err(UnsupportedLabel);
      }
      offset := offset + 1;
      if length == 0 {
        assert here[1..] == msg[offset..];
        return Ok(offset);
      }
      offset := offset + length;
      assert offset <= |msg| ==> here[1 + length..] == msg[offset..];
    }
  }

  // ----- Queries -----

  /** The question a CAA query asks. */
  function CAAQuestion(host: bytes): Question {
    Question(NameOf(Labels(host), Root), TYPE_CAA, CLASS_IN)
  }

  function QueryMessage(id: u16, host: bytes): (m: Message)
    ensures Encodable(host) ==> ValidMessage(m)
  {
    Message(id, RECURSION_DESIRED, 0, 0, [CAAQuestion(host)], [], [])
  }

  method BuildCAAQuery(id: u16, host: bytes) returns (r: Outcome<bytes, NameError>)
    ensures r == if Encodable(host) then Ok(MessageBytes(QueryMessage(id, host))) else Err(NameErrorOf(host))
  {
    var name := EncodeDNSName(host);
    if name.Err? {
      return Err(name.error);
    }
    var msg := PutU16(id);
    msg := msg + PutU16(RECURSION_DESIRED);
    msg := msg + PutU16(1);
    msg := msg + PutU16(0);
    msg := msg + PutU16(0);
    msg := msg + PutU16(0);
    ghost var header := msg;
    msg := msg + name.value;
    msg := msg + PutU16(TYPE_CAA);
    msg := msg + PutU16(CLASS_IN);
    ghost var m := QueryMessage(id, host);
    WithoutTrailing(m);
    assert header == HeaderBytes(m);
    assert m.questions[1..] == [] && QuestionsBytes([]) == [] && AnswersBytes([]) == [];
    assert QuestionsBytes(m.questions) == name.value + (PutU16(TYPE_CAA) + PutU16(CLASS_IN));
    assert msg == header + QuestionsBytes(m.questions) + AnswersBytes([]);
    return Ok(msg);
  }

  // ----- Responses -----

  function RCode(flags: u16): int {
    flags % 16
  }

  /** The records a response is worth, or the reason it is refused: the header
      is judged first, then the questions and answers as far as they are declared. */
  function ResponseRecords(msg: bytes, expectedID: u16): Outcome<seq<CAARecord>, DnsError> {
    if |msg| < 12 then Err(ShortResponse)
    else if U16(msg, 0) != expectedID then Err(IDMismatch)
    else if RCode(U16(msg, 2)) != 0 && RCode(U16(msg, 2)) != 3 then Err(ResponseCode(RCode(U16(msg, 2))))
    else
      match ReadMessage(msg)
      case Err(e) => Err(e)
      case Ok(m) => Ok(CAARecords(m.answers))
  }

  method ParseCAAResponse(msg: bytes, expectedID: u16) returns (r: Outcome<seq<CAARecord>, DnsError>)
    ensures r == ResponseRecords(msg, expectedID)
  {
    if |msg| < 12 {
      return Err(ShortResponse);
    }
    if U16(msg, 0) != expectedID {
      return Err(IDMismatch);
    }
    var flags := U16(msg, 2);
    var rcode := flags % 16;
    if rcode != 0 && rcode != 3 {
      return Err(ResponseCode(rcode));
    }
    var qdCount, anCount := U16(msg, 4), U16(msg, 6);
    var answersAt := SkipQuestions(msg, 12, qdCount);
    if answersAt.Err? {
      return Err(answersAt.error);
    }
    r := CollectRecords(msg, answersAt.value, anCount);
  }

  /** What follows `count` questions, or why they cannot all be read. */
  function AfterQuestions(s: bytes, count: nat): Outcome<bytes, DnsError> {
    match ReadQuestions(s, count)
    case Err(e) => Err(e)
    case Ok(qs) => Ok(qs.rest)
  }

  /** The records among `count` answers, or why they cannot all be read. */
  function RecordsIn(s: bytes, count: nat): Outcome<seq<CAARecord>, DnsError> {
    match ReadAnswers(s, count)
    case Err(e) => Err(e)
    case Ok(an) => Ok(CAARecords(an.value))
  }

  function After(found: seq<CAARecord>, r: Outcome<seq<CAARecord>, DnsError>)
    : (all: Outcome<seq<CAARecord>, DnsError>)
    ensures found == [] ==> all == r
    ensures r == Ok([]) ==> all == Ok(found)
    ensures r.Err? ==> all == r
  {
    match r
    case Err(e) => Err(e)
    case Ok(more) =>
      assert found == [] ==> found + more == more;
      assert found + [] == found;
      Ok(found + more)
  }

  /** The question loop of `parseCAAResponse`. */
  method SkipQuestions(msg: bytes, start: nat, qdCount: nat) returns (r: Outcome<nat, DnsError>)
    requires start <= |msg|
    ensures r.Ok? ==> start <= r.value <= |msg| && AfterQuestions(msg[start..], qdCount) == Ok(msg[r.value..])
    ensures r.Err? ==> AfterQuestions(msg[start..], qdCount) == Err(r.error)
  {
    var offset := start;
    for i := 0 to qdCount
      invariant start <= offset <= |msg|
      invariant AfterQuestions(msg[start..], qdCount) == AfterQuestions(msg[offset..], qdCount - i)
    {
      NextQuestion(msg[offset..], qdCount - i);
      var next := SkipDNSName(msg, offset);
      if next.Err? {
        return Err(next.error);
      }
      QuestionAt(msg, offset, next.value);
      offset := next.value;
      if offset + 4 > |msg| {
        return Err(ShortQuestion);
      }
      offset := offset + 4;
    }
    return Ok(offset);
  }

  /** The answer loop of `parseCAAResponse`. */
  method CollectRecords(msg: bytes, start: nat, anCount: nat) returns (r: Outcome<seq<CAARecord>, DnsError>)
    requires start <= |msg|
    ensures r == RecordsIn(msg[start..], anCount)
  {
    var offset := start;
    var records: seq<CAARecord> := [];
    hide ReadAnswers, RecordsIn, After, AfterName, ParseCAARData;
    for i := 0 to anCount
      invariant start <= offset <= |msg|
      invariant RecordsIn(msg[start..], anCount) == After(records, RecordsIn(msg[offset..], anCount - i))
    {
      var next := SkipDNSName(msg, offset);
      if next.Err? {
        NoNextAnswer(msg, offset, anCount - i);
        return Err(next.error);
      }
      NextAnswer(records, msg, offset, next.value, anCount - i);
      offset := next.value;
      if offset + 10 > |msg| {
        return Err(ShortAnswer);
      }
      var rrType := U16(msg, offset);
      var rrClass := U16(msg, offset + 2);
      var rdLength := U16(msg, offset + 8);
      offset := offset + 10;
      if offset + rdLength > |msg| {
        return Err(ShortRData);
      }
      if rrType == TYPE_CAA && rrClass == CLASS_IN {
        var record := ParseCAARData(msg[offset..offset + rdLength]);
        if record.Some? {
          records := records + [record.value];
        }
      }
      offset := offset + rdLength;
    }
    NoMoreAnswers(msg[offset..]);
    return Ok(records);
  }

  lemma NextQuestion(s: bytes, left: nat)
    requires left > 0
    ensures match ReadQuestion(s)
            case Err(e) => AfterQuestions(s, left) == Err(e)
            case Ok(q) => AfterQuestions(s, left) == AfterQuestions(q.rest, left - 1)
  {
  }

  /** One round of the answer loop, from an owner name ending at `next`. */
  lemma NextAnswer(found: seq<CAARecord>, msg: bytes, offset: nat, next: nat, left: nat)
    requires left > 0 && offset < next <= |msg| && AfterName(msg[offset..]) == Ok(msg[next..])
    ensures var all := After(found, RecordsIn(msg[offset..], left));
            if next + 10 > |msg| then all == Err(ShortAnswer)
            else
              var start, end := next + 10, next + 10 + U16(msg, next + 8);
              if end > |msg| then all == Err(ShortRData)
              else
                var isCAA := U16(msg, next) == TYPE_CAA && U16(msg, next + 2) == CLASS_IN;
                var record := if isCAA then ParseCAARData(msg[start..end]) else None;
                all == After(if record.Some? then found + [record.value] else found, RecordsIn(msg[end..], left - 1))
  {
    AnswerAt(msg, offset, next);
    if ReadAnswer(msg[offset..]).Ok? {
      var a := ReadAnswer(msg[offset..]).value;
      MoreRecords(found, a.value, ReadAnswers(a.rest, left - 1));
    }
  }

  lemma NoMoreAnswers(s: bytes)
    ensures RecordsIn(s, 0) == Ok([])
  {
  }

  lemma NoNextAnswer(msg: bytes, offset: nat, left: nat)
    requires left > 0 && offset <= |msg| && AfterName(msg[offset..]).Err?
    ensures RecordsIn(msg[offset..], left) == Err(AfterName(msg[offset..]).error)
  {
  }

  lemma MoreRecords(found: seq<CAARecord>, a: Answer, r: Outcome<Read<seq<Answer>>, DnsError>)
    ensures r.Ok? ==>
      var found' := match RecordOf(a) case Some(rec) => found + [rec] case None => found;
      found + CAARecords([a] + r.value.value) == found' + CAARecords(r.value.value)
  {
  }

  /** The question whose name ends at `next`, read in place. */
  lemma QuestionAt(msg: bytes, offset: nat, next: nat)
    requires offset < next <= |msg| && AfterName(msg[offset..]) == Ok(msg[next..])
    ensures match ReadQuestion(msg[offset..])
            case Ok(q) => next + 4 <= |msg| && q.rest == msg[next + 4..]
            case Err(e) => next + 4 > |msg| && e == ShortQuestion
  {
  }

  /** The answer whose name ends at `next`, read in place. */
  lemma AnswerAt(msg: bytes, offset: nat, next: nat)
    requires offset < next <= |msg| && AfterName(msg[offset..]) == Ok(msg[next..])
    ensures match ReadAnswer(msg[offset..])
            case Err(e) => if next + 10 > |msg| then e == ShortAnswer
                           else next + 10 + U16(msg, next + 8) > |msg| && e == ShortRData
            case Ok(a) =>
              && next + 10 <= |msg| && next + 10 + U16(msg, next + 8) <= |msg|
              && a.value.rrtype == U16(msg, next) && a.value.rrclass == U16(msg, next + 2)
              && a.value.rdata == msg[next + 10..next + 10 + U16(msg, next + 8)]
              && a.rest == msg[next + 10 + U16(msg, next + 8)..]
  {
  }

  // ----- What the parser accepts -----

  /** `m` is the message that explains why `msg` is worth `records` to a caller expecting `id`. */
  ghost predicate Explains(m: Message, msg: bytes, id: u16, records: seq<CAARecord>) {
    && ValidMessage(m)
    && MessageBytes(m) == msg
    && m.id == id
    && (m.flags % 16 == 0 || m.flags % 16 == 3)
    && records == CAARecords(m.answers)
  }

  /** Sound and complete on every byte string: the parser succeeds with `records`
      exactly when some message explains it, and that message is the only one. */
  lemma ParserAcceptsExactly(msg: bytes, id: u16, records: seq<CAARecord>)
    ensures ResponseRecords(msg, id) == Ok(records) <==> exists m :: Explains(m, msg, id, records)
    ensures forall m, m' :: Explains(m, msg, id, records) && Explains(m', msg, id, records) ==> m == m'
  {
    if ResponseRecords(msg, id) == Ok(records) {
      ReadMessageSound(msg);
      assert Explains(ReadMessage(msg).value, msg, id, records);
    }
    forall m | Explains(m, msg, id, records)
      ensures ReadMessage(msg) == Ok(m) && ResponseRecords(msg, id) == Ok(records)
    {
      MessageRoundTrip(m);
      HeaderFields(m, msg);
    }
  }

  /** Every declared question and answer of an accepted response is really there. */
  lemma AcceptedResponseSize(msg: bytes, id: u16)
    requires ResponseRecords(msg, id).Ok?
    ensures |msg| >= 12 + 5 * U16(msg, 4) + 11 * U16(msg, 6)
    ensures 14 * |ResponseRecords(msg, id).value| <= |msg| - 12
  {
    ReadMessageSound(msg);
    var m := ReadMessage(msg).value;
    HeaderFields(m, msg);
    QuestionsSize(m.questions);
    AnswersSize(m.answers);
  }

  // ----- Query and response -----

  /** An answer carrying `record`, owned by the name of the question (the pointer 0xC00C). */
  function CAAAnswer(record: CAARecord, ttl: u32): Answer
    requires ValidRecord(record)
  {
    Answer(Pointer(0xC0, 0x0C), TYPE_CAA, CLASS_IN, ttl, CAARData(record))
  }

  function CAAAnswers(records: seq<CAARecord>, ttl: u32): (answers: seq<Answer>)
    requires Representable(records)
    ensures |answers| == |records| && forall a | a in answers :: ValidAnswer(a)
  {
    if records == [] then [] else [CAAAnswer(records[0], ttl)] + CAAAnswers(records[1..], ttl)
  }

  predicate Representable(records: seq<CAARecord>) {
    forall r | r in records :: ValidRecord(r) && 2 + |r.tag| + |r.value| < 0x1_0000
  }

  /** A query turned into its reply: flags and answer count overwritten, answers appended. */
  function Reply(query: bytes, flags: u16, records: seq<CAARecord>, ttl: u32): bytes
    requires |query| >= 12 && |records| < 0x1_0000 && Representable(records)
  {
    query[..2] + PutU16(flags) + query[4..6] + PutU16(|records|) + query[8..]
    + AnswersBytes(CAAAnswers(records, ttl))
  }

  function ReplyMessage(id: u16, host: bytes, flags: u16, records: seq<CAARecord>, ttl: u32): (m: Message)
    requires |records| < 0x1_0000 && Representable(records)
    ensures Encodable(host) ==> ValidMessage(m)
  {
    QueryMessage(id, host).(flags := flags, answers := CAAAnswers(records, ttl))
  }

  lemma ReplyIsMessage(id: u16, host: bytes, flags: u16, records: seq<CAARecord>, ttl: u32)
    requires Encodable(host) && |records| < 0x1_0000 && Representable(records)
    ensures |MessageBytes(QueryMessage(id, host))| >= 12
    ensures Reply(MessageBytes(QueryMessage(id, host)), flags, records, ttl)
         == MessageBytes(ReplyMessage(id, host, flags, records, ttl))
  {
    var m, m' := QueryMessage(id, host), ReplyMessage(id, host, flags, records, ttl);
    var h, q := HeaderBytes(m), QuestionsBytes(m.questions);
    WithoutTrailing(m);
    WithoutTrailing(m');
    assert h + q + AnswersBytes([]) == h + q;
    PatchedHeader(h, q, PutU16(flags), PutU16(|records|));
    ReplyHeader(id, host, flags, records, ttl);
  }

  lemma WithoutTrailing(m: Message)
    requires ValidMessage(m) && m.trailing == []
    ensures MessageBytes(m) == HeaderBytes(m) + QuestionsBytes(m.questions) + AnswersBytes(m.answers)
  {
  }

  lemma ReplyHeader(id: u16, host: bytes, flags: u16, records: seq<CAARecord>, ttl: u32)
    requires |records| < 0x1_0000 && Representable(records)
    ensures var h, h' := HeaderBytes(QueryMessage(id, host)), HeaderBytes(ReplyMessage(id, host, flags, records, ttl));
            h' == h[..2] + PutU16(flags) + h[4..6] + PutU16(|records|) + h[8..]
  {
  }

  lemma PatchedHeader(h: bytes, q: bytes, flags: bytes, count: bytes)
    requires |h| == 12
    ensures var s := h + q;
            s[..2] + flags + s[4..6] + count + s[8..] == h[..2] + flags + h[4..6] + count + h[8..] + q
  {
  }

  lemma {:induction false} RecordsOfCAAAnswers(records: seq<CAARecord>, ttl: u32)
    requires Representable(records)
    ensures CAARecords(CAAAnswers(records, ttl)) == records
  {
    if records != [] {
      RecordsOfCAAAnswers(records[1..], ttl);
      assert RecordOf(CAAAnswer(records[0], ttl)) == Some(records[0]);
    }
  }

  /** The parser inverts the encoder: a query's reply is worth exactly the
      records put into it, for the identifier asked with and for no other. */
  lemma QueryResponseInverse(id: u16, host: bytes, flags: u16, records: seq<CAARecord>, ttl: u32, other: u16)
    requires Encodable(host) && |records| < 0x1_0000 && Representable(records)
    requires RCode(flags) == 0 || RCode(flags) == 3
    ensures |MessageBytes(QueryMessage(id, host))| >= 12
    ensures var reply := Reply(MessageBytes(QueryMessage(id, host)), flags, records, ttl);
            ResponseRecords(reply, other) == if other == id then Ok(records) else Err(IDMismatch)
  {
    ReplyIsMessage(id, host, flags, records, ttl);
    var m := ReplyMessage(id, host, flags, records, ttl);
    RecordsOfCAAAnswers(records, ttl);
    HeaderFields(m, MessageBytes(m));
    MessageRoundTrip(m);
  }

  /** An unanswered query echoed back is a response without records. */
  lemma BareQueryHasNoRecords(id: u16, host: bytes, other: u16)
    requires Encodable(host)
    ensures ResponseRecords(MessageBytes(QueryMessage(id, host)), other)
         == if other == id then Ok([]) else Err(IDMismatch)
  {
    var m := QueryMessage(id, host);
    HeaderFields(m, MessageBytes(m));
    MessageRoundTrip(m);
  }

  /** A reply cut short anywhere is refused, never read as fewer records. */
  lemma CutReplyIsRefused(id: u16, host: bytes, flags: u16, records: seq<CAARecord>, ttl: u32, cut: nat)
    requires Encodable(host) && |records| < 0x1_0000 && Representable(records)
    requires cut < |MessageBytes(ReplyMessage(id, host, flags, records, ttl))|
    ensures ResponseRecords(MessageBytes(ReplyMessage(id, host, flags, records, ttl))[..cut], id).Err?
  {
    ProperPrefixIsUnreadable(ReplyMessage(id, host, flags, records, ttl), cut);
  }

  // ----- Flags -----

  /** The bit by which a server says that it left records out (TC, RFC 1035 section 4.1.1). */
  const TRUNCATION: u16 := 0x0200

  function Truncated(flags: u16): u16 {
    if flags / TRUNCATION % 2 == 1 then flags else flags + TRUNCATION
  }

  /** Of the flags of any message whatever, the parser reads the response code only. */
  lemma OnlyResponseCodeMatters(msg: bytes, id: u16, flags: u16)
    requires |msg| >= 12 && RCode(flags) == RCode(U16(msg, 2))
    ensures ResponseRecords(msg[..2] + PutU16(flags) + msg[4..], id) == ResponseRecords(msg, id)
  {
    var msg' := msg[..2] + PutU16(flags) + msg[4..];
    assert msg'[12..] == msg[12..];
    assert U16(msg', 2) == flags;
    assert U16(msg', 0) == U16(msg, 0) && U16(msg', 4) == U16(msg, 4) && U16(msg', 6) == U16(msg, 6);
    hide ReadQuestions, ReadAnswers, CAARecords, PutU16, U16;
  }

  /** A reply that leaves records out and says so is read as if it held all there are. */
  lemma TruncationGoesUnnoticed(id: u16, host: bytes, flags: u16, records: seq<CAARecord>, ttl: u32, kept: nat)
    requires Encodable(host) && |records| < 0x1_0000 && Representable(records)
    requires (RCode(flags) == 0 || RCode(flags) == 3) && kept <= |records|
    ensures Representable(records[..kept])
    ensures var reply := MessageBytes(ReplyMessage(id, host, Truncated(flags), records[..kept], ttl));
            ResponseRecords(reply, id) == Ok(records[..kept])
  {
    assert RCode(Truncated(flags)) == RCode(flags);
    ReplyIsMessage(id, host, Truncated(flags), records[..kept], ttl);
    QueryResponseInverse(id, host, Truncated(flags), records[..kept], ttl, id);
  }

  // ----- On the wire -----

  /** The response code, as the source masks it. */
  lemma CodeMaskIsRemainder(flags: bv16)
    ensures flags & 0x000F == flags % 16
  {
  }

  /** Whatever else the flags say, a readable message with the expected id is
      accepted for the response codes 0 and 3, and refused for every other with that code. */
  lemma ResponseCodeDecides(m: Message, rest: int, code: int, id: u16)
    requires ValidMessage(m) && 0 <= code < 16 && m.flags == 16 * rest + code
    ensures ResponseRecords(MessageBytes(m), id)
         == if m.id != id then Err(IDMismatch)
            else if code == 0 || code == 3 then Ok(CAARecords(m.answers))
            else Err(ResponseCode(code))
  {
    hide *;
    assert m.flags % 16 == code;
    MessageStart(m);
    MessageRoundTrip(m);
    ReadResponse(MessageBytes(m), m, id);
  }

  lemma MessageStart(m: Message)
    requires ValidMessage(m)
    ensures var s := MessageBytes(m); |s| >= 12 && U16(s, 0) == m.id && U16(s, 2) == m.flags
  {
    var s := MessageBytes(m);
    assert |s| >= 12 && s[..12] == HeaderBytes(m);
    hide MessageBytes, HeaderBytes;
    HeaderFields(m, s);
  }

  lemma ReadResponse(s: bytes, m: Message, id: u16)
    requires |s| >= 12 && U16(s, 0) == m.id && U16(s, 2) == m.flags && ReadMessage(s) == Ok(m)
    ensures var code := m.flags % 16;
            ResponseRecords(s, id)
            == if m.id != id then Err(IDMismatch)
               else if code == 0 || code == 3 then Ok(CAARecords(m.answers))
               else Err(ResponseCode(code))
  {
    hide U16, ReadMessage, CAARecords;
  }

  /** A query, byte for byte: id, recursion desired, one question and nothing else; type 257, class 1. */
  lemma QueryOnWire(id: u16, host: bytes)
    requires Encodable(host)
    ensures MessageBytes(QueryMessage(id, host))
         == [id / 256, id % 256, 1, 0, 0, 1, 0, 0, 0, 0, 0, 0] + NameBytes(NameOf(Labels(host), Root)) + [1, 1, 0, 1]
  {
    var m := QueryMessage(id, host);
    assert m.questions[1..] == [];
    assert QuestionsBytes(m.questions) == QuestionBytes(m.questions[0]);
    assert HeaderBytes(m) == [id / 256, id % 256, 1, 0, 0, 1, 0, 0, 0, 0, 0, 0];
  }

  /** An answer in a reply, byte for byte (RFC 8659 section 4.1). */
  lemma AnswerOnWire(record: CAARecord, ttl: u32)
    requires Representable([record])
    ensures ValidRecord(record)
    ensures var size := 2 + |record.tag| + |record.value|;
            AnswerBytes(CAAAnswer(record, ttl))
            == [0xC0, 0x0C, 1, 1, 0, 1] + PutU32(ttl) + [size / 256, size % 256]
               + [record.flag, |record.tag|] + record.tag + record.value
  {
    assert record in [record];
  }

  /** The records of a message are those of its answers, one after the other. */
  lemma {:induction false} RecordsOfConcat(a: seq<Answer>, b: seq<Answer>)
    ensures CAARecords(a + b) == CAARecords(a) + CAARecords(b)
  {
    if a == [] {
      assert a + b == b;
    } else {
      assert (a + b)[1..] == a[1..] + b;
      RecordsOfConcat(a[1..], b);
    }
  }

  /** An answer is worth a record exactly when it is of type 257 and class 1 and
      its data is a flag byte, a tag of 1 to 255 bytes after its length, and a value. */
  lemma RecordOfAnswer(a: Answer)
    ensures |CAARecords([a])| <= 1
    ensures forall r :: CAARecords([a]) == [r] <==>
      && a.rrtype == 257 && a.rrclass == 1
      && 1 <= |r.tag| <= 255 && a.rdata == [r.flag, |r.tag|] + r.tag + r.value
  {
    assert [a][1..] == [] && CAARecords([a][1..]) == [];
    assert CAARecords([a]) == if RecordOf(a).Some? then [RecordOf(a).value] else [];
    hide CAARecords;
  }
}
