/** The CAA lookup against name servers that hold a zone: what a lookup brings
    back, and when the climb finds the relevant records (RFC 8659 section 3). */
module CaaZone {
  import opened Bytes
  import opened DnsMessage
  import opened DnsCodec
  import opened CaaLookup

  /** The CAA data a name server holds, by name. */
  datatype Zone = Zone(records: bytes -> seq<CAARecord>, flags: bytes -> u16, ttl: u32)

  ghost predicate ValidZone(zone: Zone) {
    && (forall d :: |zone.records(d)| < 0x1_0000 && Representable(zone.records(d)))
    && (forall d :: RCode(zone.flags(d)) == 0 || RCode(zone.flags(d)) == 3)
  }

  /** What the zone holds for the name that a lookup of `host` asks for. */
  function RecordsOf(zone: Zone, host: bytes): seq<CAARecord> {
    zone.records(Trimmed(host))
  }

  /** What a perfect lookup would bring back. */
  function Held(zone: Zone): bytes -> Answers {
    host => if Encodable(host) then Ok(RecordsOf(zone, host)) else Err(BadName(NameErrorOf(host)))
  }

  // ----- Replies -----

  /** A reply to a query for `host` with the first `kept` records; leaving some out sets the TC flag. */
  ghost function ReplyWith(zone: Zone, id: u16, host: bytes, kept: nat): bytes
    requires ValidZone(zone) && Encodable(host) && kept <= |RecordsOf(zone, host)|
  {
    var records := RecordsOf(zone, host)[..kept];
    assert Representable(records);
    MessageBytes(ReplyMessage(id, host, FlagsWith(zone, host, kept), records, zone.ttl))
  }

  function FlagsWith(zone: Zone, host: bytes, kept: nat): u16 {
    var flags := zone.flags(Trimmed(host));
    if kept == |RecordsOf(zone, host)| then flags else Truncated(flags)
  }

  /** Such a reply is worth the records it has; no part of it is. */
  lemma ReplyIsWorthItsRecords(zone: Zone, id: u16, host: bytes, kept: nat)
    requires ValidZone(zone) && Encodable(host) && kept <= |RecordsOf(zone, host)|
    ensures ResponseRecords(ReplyWith(zone, id, host, kept), id) == Ok(RecordsOf(zone, host)[..kept])
    ensures var reply := ReplyWith(zone, id, host, kept);
            |reply| > 4096 ==> ResponseRecords(reply[..4096], id).Err?
  {
    var flags, records := FlagsWith(zone, host, kept), RecordsOf(zone, host)[..kept];
    assert Representable(records);
    assert RCode(flags) == RCode(zone.flags(Trimmed(host)));
    assert ReplyWith(zone, id, host, kept) == MessageBytes(ReplyMessage(id, host, flags, records, zone.ttl));
    hide *;
    ReplyIsMessage(id, host, flags, records, zone.ttl);
    QueryResponseInverse(id, host, flags, records, zone.ttl, id);
    if |ReplyWith(zone, id, host, kept)| > 4096 {
      CutReplyIsRefused(id, host, flags, records, zone.ttl, 4096);
    }
  }

  ghost function ReplySize(zone: Zone, host: bytes, kept: nat): nat
    requires ValidZone(zone) && Encodable(host) && kept <= |RecordsOf(zone, host)|
  {
    |ReplyWith(zone, 0, host, kept)|
  }

  /** The size of a reply that leaves nothing out. */
  ghost function WholeSize(zone: Zone, host: bytes): nat
    requires ValidZone(zone) && Encodable(host)
  {
    ReplySize(zone, host, |RecordsOf(zone, host)|)
  }

  /** How many of the records for a name each server puts into its replies. */
  type Policy = (bytes, bytes) -> nat

  ghost predicate ValidPolicy(zone: Zone, kept: Policy) {
    forall server, d :: kept(server, d) <= |zone.records(d)|
  }

  /** The servers reply to every query from `zone`, each with as many records as `kept` says. */
  ghost predicate Serves(net: Network, zone: Zone, kept: Policy)
    requires ValidZone(zone) && ValidPolicy(zone, kept)
  {
    && net.servers != []
    && forall s, id, host | Encodable(host) ::
         net.exchange(s, MessageBytes(QueryMessage(id, host))) == Ok(ReplyWith(zone, id, host, kept(s, Trimmed(host))))
  }

  /** The bytes that `records` take in a reply: twelve each, and their data. */
  function RecordsSize(records: seq<CAARecord>): nat {
    if records == [] then 0 else 14 + |records[0].tag| + |records[0].value| + RecordsSize(records[1..])
  }

  /** A reply's size, from the name and the records in it. */
  lemma ReplySizeIs(zone: Zone, host: bytes, kept: nat)
    requires ValidZone(zone) && Encodable(host) && kept <= |RecordsOf(zone, host)|
    ensures ReplySize(zone, host, kept) == 18 + |Trimmed(host)| + RecordsSize(RecordsOf(zone, host)[..kept])
  {
    var records := RecordsOf(zone, host)[..kept];
    assert Representable(records);
    var m := ReplyMessage(0, host, FlagsWith(zone, host, kept), records, zone.ttl);
    assert ReplyWith(zone, 0, host, kept) == MessageBytes(m);
    hide ReplyWith, Encodable, Representable, Trimmed, Labels, FlagsWith, RecordsOf;
    CAAAnswersSize(records, zone.ttl);
    DecodedNameIsTrimmedHost(host, []);
    assert m.questions[1..] == [];
    assert |QuestionsBytes(m.questions)| == |QuestionBytes(m.questions[0])|;
  }

  lemma {:induction false} CAAAnswersSize(records: seq<CAARecord>, ttl: u32)
    requires Representable(records)
    ensures |AnswersBytes(CAAAnswers(records, ttl))| == RecordsSize(records)
  {
    if records != [] {
      var answers := CAAAnswers(records, ttl);
      CAAAnswersSize(records[1..], ttl);
      assert answers[1..] == CAAAnswers(records[1..], ttl);
      assert |AnswerBytes(answers[0])| == 14 + |records[0].tag| + |records[0].value|;
    }
  }

  lemma ReplySizeIgnoresID(zone: Zone, id: u16, host: bytes, kept: nat)
    requires ValidZone(zone) && Encodable(host) && kept <= |RecordsOf(zone, host)|
    ensures |ReplyWith(zone, id, host, kept)| == ReplySize(zone, host, kept)
  {
  }

  /** A reply brings back exactly the records it has room for, unless it does not fit the buffer. */
  lemma ServerAnswerOfReply(net: Network, zone: Zone, kept: Policy, server: bytes, host: bytes)
    requires ValidZone(zone) && ValidPolicy(zone, kept) && Serves(net, zone, kept)
    ensures var r, k := ServerAnswer(net, server, host), kept(server, Trimmed(host));
            if Encodable(host) && ReplySize(zone, host, k) <= 4096 then r == Ok(RecordsOf(zone, host)[..k])
            else r.Err?
  {
    if Encodable(host) {
      var id, k := net.queryID(server, host), kept(server, Trimmed(host));
      ReplySizeIgnoresID(zone, id, host, k);
      ReplyIsWorthItsRecords(zone, id, host, k);
      hide ReplyWith, ResponseRecords, Encodable, Trimmed;
    }
  }

  /** A lookup succeeds exactly when some server's reply fits; what it returns
      is what that server sent, the first server's if that one fits. */
  lemma {:induction false} LookupOfReplies(net: Network, zone: Zone, kept: Policy, servers: seq<bytes>, host: bytes)
    requires ValidZone(zone) && ValidPolicy(zone, kept) && Serves(net, zone, kept) && servers != []
    ensures !Encodable(host) ==> FirstAnswer(net, servers, host).Err?
    ensures Encodable(host) ==>
      var r, d := FirstAnswer(net, servers, host), Trimmed(host);
      && (r.Ok? ==> exists s | s in servers ::
            ReplySize(zone, host, kept(s, d)) <= 4096 && r.value == RecordsOf(zone, host)[..kept(s, d)])
      && (ReplySize(zone, host, kept(servers[0], d)) <= 4096 ==>
            r == Ok(RecordsOf(zone, host)[..kept(servers[0], d)]))
  {
    hide ServerAnswer, ReplySize, Encodable, Trimmed, Serves;
    ServerAnswerOfReply(net, zone, kept, servers[0], host);
    if |servers| > 1 {
      LookupOfReplies(net, zone, kept, servers[1..], host);
    }
  }

  // ----- The climb -----

  /** Against any lookup that is silent on the names without records, the climb
      finds the relevant records exactly when the lookup does at their owner;
      and what the lookup finds there is what the climb returns. */
  lemma {:induction false} ClimbIsAsGoodAsLookup(zone: Zone, names: seq<bytes>, lookup: bytes -> Answers)
    requires forall d | d in names && !HasRecords(Held(zone), d) :: !HasRecords(lookup, d)
    ensures var (d, records) := RelevantSet(names, Held(zone));
            && (RelevantSet(names, lookup) == (d, records) <==> records == [] || lookup(d) == Ok(records))
            && (records != [] && HasRecords(lookup, d) ==> RelevantSet(names, lookup) == (d, lookup(d).value))
  {
    hide Held;
    RelevantSetIsNearest(names, lookup);
    if names != [] && !HasRecords(Held(zone), names[0]) {
      ClimbIsAsGoodAsLookup(zone, names[1..], lookup);
    }
  }

  /** Servers that leave nothing out, whatever the size. */
  function Everything(zone: Zone): Policy {
    (server, d) => |zone.records(d)|
  }

  /** Against them the climb, for every host, returns the relevant records
      exactly when there are none or their reply fits the buffer. */
  lemma ClimbFindsRelevantSet(net: Network, zone: Zone, host: bytes)
    requires ValidZone(zone) && Serves(net, zone, Everything(zone))
    ensures var (d, records) := RelevantSet(Domains(host), Held(zone));
            && (records != [] ==> Encodable(d))
            && (RelevantSet(Domains(host), Lookup(net)) == (d, records) <==>
                  records == [] || WholeSize(zone, d) <= 4096)
  {
    var names := Domains(host);
    var (d, records) := RelevantSet(names, Held(zone));
    hide Domains, ReplySize, Encodable, Trimmed, FirstAnswer, Serves, ValidZone;
    forall n
      ensures HasRecords(Lookup(net), n) ==> HasRecords(Held(zone), n)
    {
      WholeLookup(net, zone, n);
    }
    RelevantSetIsNearest(names, Held(zone));
    ClimbIsAsGoodAsLookup(zone, names, Lookup(net));
    WholeLookup(net, zone, d);
  }

  lemma WholeLookup(net: Network, zone: Zone, n: bytes)
    requires ValidZone(zone) && Serves(net, zone, Everything(zone))
    ensures HasRecords(Lookup(net), n) ==> HasRecords(Held(zone), n)
    ensures if Encodable(n) && WholeSize(zone, n) <= 4096 then Lookup(net)(n) == Ok(RecordsOf(zone, n))
            else Lookup(net)(n).Err?
  {
    hide ReplySize, Encodable, Trimmed, FirstAnswer;
    LookupOfReplies(net, zone, Everything(zone), net.servers, n);
    var records := RecordsOf(zone, n);
    assert records[..|records|] == records;
  }

  // ----- Servers that truncate -----

  /** Records are left out exactly where a reply with all of them is larger than
      what a client without EDNS is sent (RFC 1035 section 4.2.1), and then as
      many as it takes or more. */
  ghost predicate Truncates(zone: Zone, kept: Policy)
    requires ValidZone(zone) && ValidPolicy(zone, kept)
  {
    forall s, host | Encodable(host) ::
      var k, n := kept(s, Trimmed(host)), |RecordsOf(zone, host)|;
      && (k == n <==> n == 0 || WholeSize(zone, host) <= 512)
      && (0 < k < n ==> ReplySize(zone, host, k) <= 512)
  }

  /** Every zone can be served so, if only by leaving out everything that does not fit. */
  lemma SomePolicyTruncates(zone: Zone)
    requires ValidZone(zone)
    ensures ValidPolicy(zone, AllOrNothing(zone)) && Truncates(zone, AllOrNothing(zone))
  {
    forall host | Encodable(host)
      ensures WholeSize(zone, host) == 18 + |Trimmed(host)| + RecordsSize(RecordsOf(zone, host))
    {
      var records := RecordsOf(zone, host);
      ReplySizeIs(zone, host, |records|);
      assert records[..|records|] == records;
    }
    hide ReplySize, Encodable, Trimmed;
  }

  function AllOrNothing(zone: Zone): Policy {
    (server, d) => if 18 + |d| + RecordsSize(zone.records(d)) <= 512 then |zone.records(d)| else 0
  }

  /** Against servers that truncate, the climb returns the relevant records
      exactly when there are none or their reply fits a datagram. */
  lemma ClimbAgainstTruncation(net: Network, zone: Zone, kept: Policy, host: bytes)
    requires ValidZone(zone) && ValidPolicy(zone, kept) && Truncates(zone, kept) && Serves(net, zone, kept)
    ensures var (d, records) := RelevantSet(Domains(host), Held(zone));
            && (records != [] ==> Encodable(d))
            && (RelevantSet(Domains(host), Lookup(net)) == (d, records) <==>
                  records == [] || WholeSize(zone, d) <= 512)
  {
    var names := Domains(host);
    var (d, records) := RelevantSet(names, Held(zone));
    hide Domains, ReplySize, Encodable, Trimmed, FirstAnswer, Truncates, Serves, ValidPolicy, ValidZone;
    forall n
      ensures HasRecords(Lookup(net), n) ==> HasRecords(Held(zone), n)
    {
      TruncatedLookup(net, zone, kept, n);
    }
    RelevantSetIsNearest(names, Held(zone));
    ClimbIsAsGoodAsLookup(zone, names, Lookup(net));
    TruncatedLookup(net, zone, kept, d);
  }

  /** The records that the first server kept are returned as if they were all. */
  lemma KeptRecordsPassForAll(net: Network, zone: Zone, kept: Policy, host: bytes)
    requires ValidZone(zone) && ValidPolicy(zone, kept) && Truncates(zone, kept) && Serves(net, zone, kept)
    ensures var (d, records) := RelevantSet(Domains(host), Held(zone));
            var k := kept(net.servers[0], Trimmed(d));
            records != [] && 0 < k <= |records| ==> RelevantSet(Domains(host), Lookup(net)) == (d, records[..k])
  {
    var names := Domains(host);
    var (d, records) := RelevantSet(names, Held(zone));
    assert net.servers != [];
    hide Domains, ReplySize, Encodable, Trimmed, FirstAnswer, Truncates, Serves, ValidPolicy, ValidZone;
    forall n
      ensures HasRecords(Lookup(net), n) ==> HasRecords(Held(zone), n)
    {
      TruncatedLookup(net, zone, kept, n);
    }
    RelevantSetIsNearest(names, Held(zone));
    ClimbIsAsGoodAsLookup(zone, names, Lookup(net));
    TruncatedLookup(net, zone, kept, d);
  }

  lemma TruncatedLookup(net: Network, zone: Zone, kept: Policy, n: bytes)
    requires ValidZone(zone) && ValidPolicy(zone, kept) && Truncates(zone, kept) && Serves(net, zone, kept)
    ensures HasRecords(Lookup(net), n) ==> HasRecords(Held(zone), n)
    ensures Encodable(n) && RecordsOf(zone, n) != [] ==>
      var k := kept(net.servers[0], Trimmed(n));
      && (Lookup(net)(n) == Ok(RecordsOf(zone, n)) <==> WholeSize(zone, n) <= 512)
      && (k > 0 ==> Lookup(net)(n) == Ok(RecordsOf(zone, n)[..k]))
  {
    hide ReplySize, Encodable, Trimmed, FirstAnswer;
    LookupOfReplies(net, zone, kept, net.servers, n);
    var records := RecordsOf(zone, n);
    assert records[..|records|] == records;
  }

  // ----- Servers that do so -----

  /** Name servers for `zone`: each reads the query and answers its question. */
  function ServerFor(zone: Zone, kept: Policy): Network {
    Network([FALLBACK[0]], (s, host) => 0x1234, (s, query) => AnswerTo(zone, kept, s, query))
  }

  function AnswerTo(zone: Zone, kept: Policy, server: bytes, query: bytes): Outcome<bytes, string> {
    match ReadMessage(query)
    case Err(e) => Err("unreadable")
    case Ok(m) =>
      var d := if m.questions == [] then [] else Join(LabelsOf(m.questions[0].name), [DOT]);
      var records, k := zone.records(d), kept(server, d);
      var flags := if k == |records| then zone.flags(d) else Truncated(zone.flags(d));
      if |query| < 12 || k > |records| || k >= 0x1_0000 || !Representable(records[..k]) then Err("refused")
      else Ok(Reply(query, flags, records[..k], zone.ttl))
  }

  /** Such servers exist for every zone and policy: decoding the question recovers the name asked for. */
  lemma ServerForServes(zone: Zone, kept: Policy)
    requires ValidZone(zone) && ValidPolicy(zone, kept)
    ensures Serves(ServerFor(zone, kept), zone, kept)
  {
    forall s, id, host | Encodable(host)
      ensures AnswerTo(zone, kept, s, MessageBytes(QueryMessage(id, host)))
           == Ok(ReplyWith(zone, id, host, kept(s, Trimmed(host))))
    {
      AnsweredQuery(zone, kept, s, id, host);
    }
    hide AnswerTo, ReplyWith, Encodable, Trimmed;
  }

  lemma AnsweredQuery(zone: Zone, kept: Policy, server: bytes, id: u16, host: bytes)
    requires ValidZone(zone) && ValidPolicy(zone, kept) && Encodable(host)
    ensures AnswerTo(zone, kept, server, MessageBytes(QueryMessage(id, host)))
         == Ok(ReplyWith(zone, id, host, kept(server, Trimmed(host))))
  {
    var d := Trimmed(host);
    var k := kept(server, d);
    assert Representable(zone.records(d)[..k]);
    MessageRoundTrip(QueryMessage(id, host));
    DecodedNameIsTrimmedHost(host, []);
    ReplyIsMessage(id, host, FlagsWith(zone, host, k), zone.records(d)[..k], zone.ttl);
    hide ReadMessage, MessageBytes, Reply, Encodable, Trimmed, Representable, Labels, Join, LabelsOf, NameOf;
  }

  // ----- The cases that fail -----

  // The names a.b and b.
  const CHILD: bytes := [97, 46, 98]
  const PARENT: bytes := [98]

  /** CHILD holds a small record and one of `size` bytes; PARENT a small one. */
  function TwoNames(size: nat): Zone {
    var small := CAARecord(0, [97], []);
    Zone(d => if d == CHILD then [small, CAARecord(0, [97], seq(size, _ => 0))]
              else if d == PARENT then [small]
              else [],
         d => 0, 300)
  }

  lemma TwoNamesValid(size: nat)
    requires size <= 5000
    ensures ValidZone(TwoNames(size))
  {
  }

  /** A record set too large for the buffer is skipped in favour of the parent's. */
  lemma OversizedAnswerYieldsParent()
    ensures var zone := TwoNames(5000);
            var net := ServerFor(zone, Everything(zone));
            && ValidZone(zone) && Serves(net, zone, Everything(zone))
            && RelevantSet(Domains(CHILD), Held(zone)) == (CHILD, zone.records(CHILD))
            && RelevantSet(Domains(CHILD), Lookup(net)) == (PARENT, zone.records(PARENT))
  {
    var zone := TwoNames(5000);
    var net := ServerFor(zone, Everything(zone));
    TwoNamesValid(5000);
    ServerForServes(zone, Everything(zone));
    ChildAndParent();
    OversizedLookups(net);
    hide Lookup, Domains, Trimmed, Labels, Serves, AnswerTo, ServerFor, RelevantSet;
    NearestOfTwo(CHILD, PARENT, Held(zone));
    NearestOfTwo(CHILD, PARENT, Lookup(net));
  }

  lemma OversizedLookups(net: Network)
    requires ValidZone(TwoNames(5000)) && Serves(net, TwoNames(5000), Everything(TwoNames(5000)))
    ensures Lookup(net)(CHILD).Err? && Lookup(net)(PARENT) == Ok(TwoNames(5000).records(PARENT))
  {
    ChildAndParent();
    ChildSizes(5000, CHILD);
    ParentSize(5000, PARENT);
    hide Lookup, Trimmed, Labels, ReplySize, Serves;
    WholeLookup(net, TwoNames(5000), CHILD);
    WholeLookup(net, TwoNames(5000), PARENT);
  }

  /** The sizes of replies about the two names, in whatever way they are written. */
  lemma ChildSizes(size: nat, host: bytes)
    requires size <= 5000 && Trimmed(host) == CHILD
    ensures ValidZone(TwoNames(size)) && Encodable(host) && |RecordsOf(TwoNames(size), host)| == 2
    ensures ReplySize(TwoNames(size), host, 1) == 36 && ReplySize(TwoNames(size), host, 2) == 51 + size
  {
    var zone := TwoNames(size);
    TwoNamesValid(size);
    ChildAndParent();
    var records := RecordsOf(zone, host);
    assert records[..2] == records && records[1..][1..] == [] && records[..1][1..] == [];
    hide ReplySize, Trimmed, Labels;
    ReplySizeIs(zone, host, 1);
    ReplySizeIs(zone, host, 2);
  }

  lemma ParentSize(size: nat, host: bytes)
    requires size <= 5000 && Trimmed(host) == PARENT
    ensures ValidZone(TwoNames(size)) && Encodable(host) && |RecordsOf(TwoNames(size), host)| == 1
    ensures ReplySize(TwoNames(size), host, 1) == 34
  {
    var zone := TwoNames(size);
    TwoNamesValid(size);
    ChildAndParent();
    var records := RecordsOf(zone, host);
    assert records[..1] == records && records[1..] == [];
    hide ReplySize, Trimmed, Labels;
    ReplySizeIs(zone, host, 1);
  }

  function RoomForOne(zone: Zone): Policy {
    (server, d) => if d == CHILD && |zone.records(d)| > 0 then 1 else |zone.records(d)|
  }

  /** A server that has room for one record of two sends that one, and the climb
      returns it as if it were all that the name holds. */
  lemma TruncatedAnswerYieldsPart()
    ensures var zone := TwoNames(600);
            var kept := RoomForOne(zone);
            var net := ServerFor(zone, kept);
            && ValidZone(zone) && ValidPolicy(zone, kept) && Truncates(zone, kept) && Serves(net, zone, kept)
            && RelevantSet(Domains(CHILD), Held(zone)) == (CHILD, zone.records(CHILD))
            && RelevantSet(Domains(CHILD), Lookup(net)) == (CHILD, zone.records(CHILD)[..1])
            && zone.records(CHILD)[..1] != zone.records(CHILD)
  {
    var zone := TwoNames(600);
    var kept := RoomForOne(zone);
    var net := ServerFor(zone, kept);
    TwoNamesValid(600);
    ServerForServes(zone, kept);
    RoomForOneTruncates();
    ChildAndParent();
    NearestOfTwo(CHILD, PARENT, Held(zone));
    hide Truncates, Serves, Domains, Trimmed, Labels;
    KeptRecordsPassForAll(net, zone, kept, CHILD);
  }

  /** A server that leaves out all that does not fit makes the climb pass over
      the name, and the parent's records are returned. */
  lemma TruncatedAnswerYieldsParent()
    ensures var zone := TwoNames(600);
            var net := ServerFor(zone, AllOrNothing(zone));
            && ValidZone(zone) && Truncates(zone, AllOrNothing(zone)) && Serves(net, zone, AllOrNothing(zone))
            && RelevantSet(Domains(CHILD), Held(zone)) == (CHILD, zone.records(CHILD))
            && RelevantSet(Domains(CHILD), Lookup(net)) == (PARENT, zone.records(PARENT))
  {
    var zone := TwoNames(600);
    var kept := AllOrNothing(zone);
    var net := ServerFor(zone, kept);
    TwoNamesValid(600);
    SomePolicyTruncates(zone);
    ServerForServes(zone, kept);
    ChildAndParent();
    KeptOfTwo();
    NothingKept(net, zone, kept, CHILD);
    hide Lookup, Domains, Trimmed, Labels, Serves, AnswerTo, ServerFor, RelevantSet, Truncates, AllOrNothing;
    NearestOfTwo(CHILD, PARENT, Held(zone));
    NearestOfTwo(CHILD, PARENT, Lookup(net));
    TruncatedLookup(net, zone, kept, PARENT);
    assert zone.records(PARENT)[..1] == zone.records(PARENT);
  }

  lemma KeptOfTwo()
    ensures var kept := AllOrNothing(TwoNames(600)); forall s :: kept(s, CHILD) == 0 && kept(s, PARENT) == 1
  {
    var records, one := TwoNames(600).records(CHILD), TwoNames(600).records(PARENT);
    assert records[1..][1..] == [] && one[1..] == [];
    assert |records[1].value| == 600 && records[1..][0] == records[1];
    assert RecordsSize(records[1..]) == 615 + RecordsSize([]);
    assert RecordsSize(records) == 15 + 615 && RecordsSize(one) == 15;
  }

  lemma NothingKept(net: Network, zone: Zone, kept: Policy, host: bytes)
    requires ValidZone(zone) && ValidPolicy(zone, kept) && Serves(net, zone, kept)
    requires Encodable(host) && |Trimmed(host)| <= 1000 && kept(net.servers[0], Trimmed(host)) == 0
    ensures Lookup(net)(host) == Ok([])
  {
    assert RecordsOf(zone, host)[..0] == [];
    hide Encodable, Trimmed, FirstAnswer, Serves, ReplySize;
    ReplySizeIs(zone, host, 0);
    LookupOfReplies(net, zone, kept, net.servers, host);
  }

  lemma RoomForOneTruncates()
    ensures ValidZone(TwoNames(600)) && Truncates(TwoNames(600), RoomForOne(TwoNames(600)))
  {
    var zone := TwoNames(600);
    var kept := RoomForOne(zone);
    TwoNamesValid(600);
    forall s, host | Encodable(host)
      ensures var k, n := kept(s, Trimmed(host)), |RecordsOf(zone, host)|;
              && (k == n <==> n == 0 || WholeSize(zone, host) <= 512)
              && (0 < k < n ==> ReplySize(zone, host, k) <= 512)
    {
      hide ReplySize, Trimmed, Encodable;
      if Trimmed(host) == CHILD {
        ChildSizes(600, host);
      } else if Trimmed(host) == PARENT {
        ParentSize(600, host);
      }
    }
  }

  lemma NearestOfTwo(a: bytes, b: bytes, lookup: bytes -> Answers)
    ensures RelevantSet([a, b], lookup)
         == if HasRecords(lookup, a) then (a, lookup(a).value)
            else if HasRecords(lookup, b) then (b, lookup(b).value)
            else ([], [])
  {
    assert [a, b][1..] == [b] && [b][1..] == [];
    assert RelevantSet([b], lookup) == if HasRecords(lookup, b) then (b, lookup(b).value) else ([], []);
  }

  lemma ChildAndParent()
    ensures Trimmed(CHILD) == CHILD && Trimmed(PARENT) == PARENT
    ensures Labels(CHILD) == [[97], [98]] && Labels(PARENT) == [[98]]
    ensures Domains(CHILD) == [CHILD, PARENT]
    ensures Encodable(CHILD) && Encodable(PARENT)
  {
    DomainsOfThree([], [97], PARENT);
    assert Join([[97], PARENT], [DOT]) == CHILD;
    hide Trimmed, Domains, DomainsFrom, Join, Split;
    NameOfTidyLabels([PARENT]);
    NameOfTidyLabels([[97], PARENT]);
  }

  /** The domains from one, two and three labels on. */
  lemma DomainsOfThree(a: bytes, b: bytes, c: bytes)
    ensures Join([c], [DOT]) == c && Join([b, c], [DOT]) == b + [DOT] + c
    ensures Join([a, b, c], [DOT]) == a + [DOT] + (b + [DOT] + c)
    ensures DomainsFrom([c]) == [c] && DomainsFrom([b, c]) == [b + [DOT] + c, c]
    ensures DomainsFrom([a, b, c]) == [a + [DOT] + (b + [DOT] + c), b + [DOT] + c, c]
  {
    assert [a, b, c][1..] == [b, c] && [b, c][1..] == [c] && [c][1..] == [];
  }

  // The name a..b, and what is above it.
  const GAPPED: bytes := [97, 46, 46, 98]
  const HEADLESS: bytes := [46, 98]

  /** An empty label is trimmed away: the climb from a..b asks about b twice,
      and what b holds it returns under the name .b. */
  lemma EmptyLabelAsksTwice(zone: Zone)
    ensures Domains(GAPPED) == [GAPPED, HEADLESS, PARENT]
    ensures !Encodable(GAPPED) && Encodable(HEADLESS) && Encodable(PARENT)
    ensures Trimmed(HEADLESS) == Trimmed(PARENT) == PARENT
    ensures zone.records(PARENT) != [] ==> RelevantSet(Domains(GAPPED), Held(zone)) == (HEADLESS, zone.records(PARENT))
  {
    GappedLabels();
    ChildAndParent();
    assert [] in Labels(GAPPED);
    var names := [GAPPED, HEADLESS, PARENT];
    hide Domains, Trimmed, Labels;
    assert names[1..] == [HEADLESS, PARENT];
    NearestOfTwo(HEADLESS, PARENT, Held(zone));
  }

  lemma GappedLabels()
    ensures Trimmed(GAPPED) == GAPPED && Labels(GAPPED) == [[97], [], PARENT]
    ensures Trimmed(HEADLESS) == PARENT && Labels(HEADLESS) == Labels(PARENT)
    ensures Domains(GAPPED) == [GAPPED, HEADLESS, PARENT]
  {
    DomainsOfThree([97], [], PARENT);
    assert HEADLESS == [] + [DOT] + PARENT && GAPPED == [97] + [DOT] + HEADLESS;
    assert [[], PARENT] == [[97], [], PARENT][1..];
    ChildAndParent();
    hide Trimmed, Domains, DomainsFrom, Join, Split;
    NameOfTidyLabels([[97], [], PARENT]);
    assert TidyLabels([[], PARENT]);
    TrimmedDomain([[], PARENT]);
  }
}
