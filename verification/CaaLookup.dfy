/** The tree climb of internal/checker/dns.go: which servers are asked, which
    names are asked for, and which records the caller gets (RFC 8659 section 3). */
module CaaLookup {
  import opened Bytes
  import opened DnsMessage
  import opened DnsCodec

  datatype LookupError =
    | BadName(name: NameError)
    | Transport(text: string)
    | BadResponse(dns: DnsError)
    | NoServers

  type Answers = Outcome<seq<CAARecord>, LookupError>

  // ----- Servers -----

  const FALLBACK: seq<bytes> := [Ascii("1.1.1.1:53"), Ascii("8.8.8.8:53")]

  const NAMESERVER: bytes := Ascii("nameserver")

  /** A line of resolv.conf names a server by a literal address. */
  predicate NamesServer(line: bytes, isIP: bytes -> bool) {
    var fields := Fields(line);
    |fields| >= 2 && fields[0] == NAMESERVER && isIP(ServerHost(line))
  }

  function ServerHost(line: bytes): bytes
    requires |Fields(line)| >= 2
  {
    Trim(Fields(line)[1], {OPEN_BRACKET, CLOSE_BRACKET})
  }

  /** Every server that `lines` name, in order. */
  function ServersIn(lines: seq<bytes>, isIP: bytes -> bool, join: bytes -> bytes): seq<bytes> {
    if lines == [] then []
    else
      (if NamesServer(lines[0], isIP) then [join(ServerHost(lines[0]))] else [])
      + ServersIn(lines[1..], isIP, join)
  }

  /** The first three servers that the configuration names, or the fallback.
      `config` is the file's contents, absent when unreadable. */
  method DNSServers(config: Option<bytes>, isIP: bytes -> bool, join: bytes -> bytes) returns (servers: seq<bytes>)
    ensures 1 <= |servers| <= 3
    ensures var named := if config.Some? then ServersIn(Split(config.value, NEWLINE), isIP, join) else [];
            servers == if named == [] then [Ascii("1.1.1.1:53"), Ascii("8.8.8.8:53")]
                       else if |named| <= 3 then named else named[..3]
  {
    hide ServersIn, Split, Join, Ascii;
    if config.None? {
      return FALLBACK;
    }
    servers := FirstServers(Split(config.value, NEWLINE), isIP, join);
    if |servers| == 0 {
      return FALLBACK;
    }
  }

  /** The loop over the lines. */
  method FirstServers(lines: seq<bytes>, isIP: bytes -> bool, join: bytes -> bytes) returns (servers: seq<bytes>)
    ensures var named := ServersIn(lines, isIP, join);
            servers == if |named| <= 3 then named else named[..3]
  {
    hide ServersIn, ServerHost, NamesServer, Ascii, Fields;
    servers := [];
    assert lines[0..] == lines;
    for i := 0 to |lines|
      invariant |servers| < 3
      invariant ServersIn(lines, isIP, join) == servers + ServersIn(lines[i..], isIP, join)
    {
      NextServer(lines, i, isIP, join);
      var host := NamedServer(lines[i], isIP);
      if host.None? {
        continue;
      }
      servers := servers + [join(host.value)];
      if |servers| == 3 {
        assert ServersIn(lines, isIP, join)[..3] == servers;
        return;
      }
    }
    NoMoreServers(lines, isIP, join);
  }

  /** The server that a line names, if it does. */
  method NamedServer(line: bytes, isIP: bytes -> bool) returns (r: Option<bytes>)
    ensures r.Some? <==> NamesServer(line, isIP)
    ensures r.Some? ==> |Fields(line)| >= 2 && r.value == ServerHost(line)
  {
    hide Fields, Trim, Ascii;
    var fields := Fields(line);
    if |fields| < 2 || fields[0] != NAMESERVER {
      return None;
    }
    var host := Trim(fields[1], {OPEN_BRACKET, CLOSE_BRACKET});
    if !isIP(host) {
      return None;
    }
    return Some(host);
  }

  /** One round of the loop. */
  lemma NextServer(lines: seq<bytes>, i: nat, isIP: bytes -> bool, join: bytes -> bytes)
    requires i < |lines|
    ensures ServersIn(lines[i..], isIP, join)
         == (if NamesServer(lines[i], isIP) then [join(ServerHost(lines[i]))] else [])
            + ServersIn(lines[i + 1..], isIP, join)
  {
    assert lines[i..][1..] == lines[i + 1..];
  }

  /** A line of two words names a server exactly when the first is "nameserver"
      and the second a literal address, in brackets or not. */
  lemma ServerOfLine(word: bytes, address: bytes, isIP: bytes -> bool, join: bytes -> bytes)
    requires word != [] && WordLength(word) == |word| && address != [] && WordLength(address) == |address|
    ensures var host := Trim(address, {'[' as int, ']' as int});
            ServersIn([word + [' ' as int] + address], isIP, join)
            == if word == Ascii("nameserver") && isIP(host) then [join(host)] else []
  {
    hide *;
    FieldsOfTwo(word, address);
    ServerOfWords(word + [' ' as int] + address, word, address, isIP, join);
  }

  lemma ServerOfWords(line: bytes, word: bytes, address: bytes, isIP: bytes -> bool, join: bytes -> bytes)
    requires Fields(line) == [word, address]
    ensures var host := Trim(address, {'[' as int, ']' as int});
            ServersIn([line], isIP, join) == if word == Ascii("nameserver") && isIP(host) then [join(host)] else []
  {
    hide Fields, Trim, Ascii;
    assert [line][1..] == [] && ServersIn([], isIP, join) == [];
  }

  /** The servers of a file are those of its lines, one after the other. */
  lemma {:induction false} ServersOfLines(a: seq<bytes>, b: seq<bytes>, isIP: bytes -> bool, join: bytes -> bytes)
    ensures ServersIn(a + b, isIP, join) == ServersIn(a, isIP, join) + ServersIn(b, isIP, join)
  {
    if a == [] {
      assert a + b == b;
    } else {
      assert (a + b)[1..] == a[1..] + b && (a + b)[0] == a[0];
      assert (a + b)[0..] == a + b && a[0..] == a;
      NextServer(a + b, 0, isIP, join);
      NextServer(a, 0, isIP, join);
      hide *;
      ServersOfLines(a[1..], b, isIP, join);
    }
  }

  lemma NoMoreServers(lines: seq<bytes>, isIP: bytes -> bool, join: bytes -> bytes)
    ensures ServersIn(lines[|lines|..], isIP, join) == []
  {
  }

  // ----- One lookup -----

  /** Everything outside the program that a lookup meets: the configured
      servers, the random identifiers and what each exchange brings back. */
  datatype Network = Network(servers: seq<bytes>,
                             queryID: (bytes, bytes) -> u16,
                             exchange: (bytes, bytes) -> Outcome<bytes, string>)

  /** Datagrams are read into a buffer of this size; the rest of a longer one is lost. */
  const BUFFER := 4096

  function Received(datagram: bytes): bytes {
    if |datagram| <= BUFFER then datagram else datagram[..BUFFER]
  }

  function ServerAnswer(net: Network, server: bytes, host: bytes): Answers {
    if !Encodable(host) then Err(BadName(NameErrorOf(host)))
    else
      var id := net.queryID(server, host);
      match net.exchange(server, MessageBytes(QueryMessage(id, host)))
      case Err(e) => Err(Transport(e))
      case Ok(datagram) =>
        match ResponseRecords(Received(datagram), id)
        case Err(e) => Err(BadResponse(e))
        case Ok(records) => Ok(records)
  }

  /** One exchange, whatever comes back: no question for a name that cannot be
      sent; else what the first 4096 bytes of the datagram are worth. */
  lemma ExchangeOutcome(net: Network, server: bytes, host: bytes)
    ensures var r, id := ServerAnswer(net, server, host), net.queryID(server, host);
            && (!Encodable(host) ==> r == Err(BadName(NameErrorOf(host))))
            && (Encodable(host) ==>
                  match net.exchange(server, MessageBytes(QueryMessage(id, host)))
                  case Err(reason) => r == Err(Transport(reason))
                  case Ok(datagram) =>
                    match ResponseRecords(datagram[..if |datagram| < 4096 then |datagram| else 4096], id)
                    case Err(e) => r == Err(BadResponse(e))
                    case Ok(records) => r == Ok(records))
  {
    hide Encodable, MessageBytes, ResponseRecords, QueryMessage;
    forall datagram: bytes
      ensures Received(datagram) == datagram[..if |datagram| < 4096 then |datagram| else 4096]
    {
      assert |datagram| <= 4096 ==> datagram[..|datagram|] == datagram;
    }
  }

  method QueryCAAServer(net: Network, server: bytes, host: bytes) returns (r: Answers)
    ensures r == ServerAnswer(net, server, host)
  {
    var queryID := net.queryID(server, host);
    var query := BuildCAAQuery(queryID, host);
    if query.Err? {
      return Err(BadName(query.error));
    }
    var reply := net.exchange(server, query.value);
    if reply.Err? {
      return Err(Transport(reply.error));
    }
    var records := ParseCAAResponse(Received(reply.value), queryID);
    if records.Err? {
      return Err(BadResponse(records.error));
    }
    return Ok(records.value);
  }

  /** The answer of the first of `servers` that has one, else the last error. */
  function FirstAnswer(net: Network, servers: seq<bytes>, host: bytes): Answers {
    if servers == [] then Err(NoServers)
    else if ServerAnswer(net, servers[0], host).Ok? || |servers| == 1 then ServerAnswer(net, servers[0], host)
    else FirstAnswer(net, servers[1..], host)
  }

  function Lookup(net: Network): bytes -> Answers {
    host => FirstAnswer(net, net.servers, host)
  }

  method LookupCAA(net: Network, host: bytes) returns (r: Answers)
    ensures r == Lookup(net)(host)
    ensures r.Err? <==> forall s | s in net.servers :: ServerAnswer(net, s, host).Err?
  {
    hide ServerAnswer;
    var servers := net.servers;
    var lastErr: Option<LookupError> := None;
    for i := 0 to |servers|
      invariant forall s | s in servers[..i] :: ServerAnswer(net, s, host).Err?
      invariant lastErr.Some? <==> i > 0
      invariant FirstAnswer(net, servers, host)
             == if i > 0 && i == |servers| then Err(lastErr.value) else FirstAnswer(net, servers[i..], host)
    {
      var records := QueryCAAServer(net, servers[i], host);
      if records.Ok? {
        return Ok(records.value);
      }
      assert servers[i..][1..] == servers[i + 1..];
      assert servers[..i + 1] == servers[..i] + [servers[i]];
      lastErr := Some(records.error);
    }
    assert servers[..|servers|] == servers;
    if lastErr.Some? {
      return Err(lastErr.value);
    }
    return Err(NoServers);
  }

  /** When every server fails, the last one's error is what is left. */
  lemma {:induction false} LastErrorIsLeft(net: Network, servers: seq<bytes>, host: bytes)
    requires forall s | s in servers :: ServerAnswer(net, s, host).Err?
    ensures FirstAnswer(net, servers, host)
         == if servers == [] then Err(NoServers) else ServerAnswer(net, servers[|servers| - 1], host)
  {
    hide ServerAnswer;
    if |servers| > 1 {
      assert servers[0] in servers;
      LastErrorIsLeft(net, servers[1..], host);
    }
  }

  // ----- The climb -----

  /** The domain above `host`: what follows its first dot, if anything does. */
  function ParentDomain(host: bytes): (parent: bytes)
    ensures parent != [] ==> |parent| < |host|
    ensures parent != [] ==> Split(host, DOT)[1..] == Split(parent, DOT)
    ensures parent == [] && host != [] && host[|host| - 1] != DOT ==> |Split(host, DOT)| == 1
  {
    if host == [] then []
    else if host[0] == DOT then host[1..]
    else
      var above := ParentDomain(host[1..]);
      assert host[1..] != [] ==> host[1..][|host[1..]| - 1] == host[|host| - 1];
      above
  }

  /** `host` and every domain above it, nearest first: the names of the labels from each one on. */
  function DomainsFrom(labels: seq<bytes>): seq<bytes> {
    if labels == [] then [] else [Join(labels, [DOT])] + DomainsFrom(labels[1..])
  }

  function DomainsAt(name: bytes): seq<bytes> {
    if name == [] then [] else DomainsFrom(Split(name, DOT))
  }

  function Domains(host: bytes): seq<bytes> {
    DomainsAt(Trimmed(host))
  }

  predicate HasRecords(lookup: bytes -> Answers, name: bytes) {
    lookup(name).Ok? && lookup(name).value != []
  }

  /** RFC 8659 section 3: the records of the nearest of `names` that has any. */
  function RelevantSet(names: seq<bytes>, lookup: bytes -> Answers): (bytes, seq<CAARecord>) {
    if names == [] then ([], [])
    else if HasRecords(lookup, names[0]) then (names[0], lookup(names[0]).value)
    else RelevantSet(names[1..], lookup)
  }

  ghost predicate IsNearest(names: seq<bytes>, lookup: bytes -> Answers, d: bytes) {
    exists k | 0 <= k < |names| :: names[k] == d && forall n | n in names[..k] :: !HasRecords(lookup, n)
  }

  /** RFC 8659's relevant records: found at `names[k]`, and at no name before it. */
  lemma {:induction false} RelevantSetIsNearest(names: seq<bytes>, lookup: bytes -> Answers)
    ensures var (d, records) := RelevantSet(names, lookup);
            && (records == [] ==> d == [] && forall n | n in names :: !HasRecords(lookup, n))
            && (records != [] ==> lookup(d) == Ok(records) && IsNearest(names, lookup, d))
  {
    if names != [] && !HasRecords(lookup, names[0]) {
      RelevantSetIsNearest(names[1..], lookup);
      var (d, records) := RelevantSet(names, lookup);
      if records != [] {
        var rest := names[1..];
        var k :| 0 <= k < |rest| && rest[k] == d && forall n | n in rest[..k] :: !HasRecords(lookup, n);
        assert names[..k + 1] == [names[0]] + names[1..][..k];
        assert names[k + 1] == d;
      }
    } else if names != [] {
      assert names[0] == names[0] && names[..0] == [];
    }
  }

  lemma {:induction false} AnyRelevant(names: seq<bytes>, lookup: bytes -> Answers)
    ensures RelevantSet(names, lookup).1 != [] <==> exists n | n in names :: HasRecords(lookup, n)
  {
    if names != [] {
      AnyRelevant(names[1..], lookup);
      assert names == [names[0]] + names[1..];
    }
  }

  method LookupCAAHierarchy(net: Network, host: bytes)
    returns (caaHost: bytes, caa: seq<CAARecord>, ghost asked: seq<bytes>)
    ensures (caaHost, caa) == RelevantSet(Domains(host), Lookup(net))
    ensures asked <= Domains(host)
    ensures |asked| <= |Labels(host)|
    ensures if caa == [] then asked == Domains(host) else asked != [] && asked[|asked| - 1] == caaHost
  {
    hide FirstAnswer, DomainsAt, Split, Join, Lookup, TrimSpace;
    var trimmed := Trim(TrimSpace(host), {DOT});
    var current := trimmed;
    ghost var left := DomainsAt(current);
    asked := [];
    DomainsAtLength(current);
    while current != []
      invariant Domains(host) == asked + left && left == DomainsAt(current)
      invariant current != [] ==> current[|current| - 1] != DOT
      invariant RelevantSet(Domains(host), Lookup(net)) == RelevantSet(left, Lookup(net))
      decreases |current|
    {
      ClimbStep(current);
      var found := LookupCAA(net, current);
      asked, left := asked + [current], left[1..];
      if found.Ok? && |found.value| > 0 {
        return current, found.value, asked;
      }
      current := ParentDomain(current);
    }
    NoDomains();
    return [], [], asked;
  }

  lemma NoDomains()
    ensures DomainsAt([]) == []
  {
  }

  lemma ClimbStep(name: bytes)
    requires name != [] && name[|name| - 1] != DOT
    ensures var parent := ParentDomain(name);
            && DomainsAt(name) == [name] + DomainsAt(parent)
            && (parent != [] ==> parent[|parent| - 1] != DOT)
  {
    LastByteOfParent(name);
    var labels := Split(name, DOT);
    assert DomainsFrom(labels) == [name] + DomainsFrom(labels[1..]);
    if ParentDomain(name) == [] {
      assert labels[1..] == [];
    }
  }

  lemma DomainsAtLength(name: bytes)
    ensures |DomainsAt(name)| <= |Split(name, DOT)|
  {
    DomainsFromLength(Split(name, DOT));
  }

  lemma {:induction false} DomainsFromLength(labels: seq<bytes>)
    ensures |DomainsFrom(labels)| == |labels|
  {
    if labels != [] { DomainsFromLength(labels[1..]); }
  }

  lemma {:induction false} LastByteOfParent(host: bytes)
    ensures var p := ParentDomain(host); p != [] ==> p[|p| - 1] == host[|host| - 1]
  {
  }

  // ----- Which questions are asked -----

  lemma {:induction false} DomainsFromAt(labels: seq<bytes>, i: nat)
    requires i < |labels|
    ensures |DomainsFrom(labels)| == |labels| && DomainsFrom(labels)[i] == Join(labels[i..], [DOT])
  {
    DomainsFromLength(labels);
    if i == 0 {
      assert labels[0..] == labels;
    } else {
      DomainsFromAt(labels[1..], i - 1);
      assert labels[1..][i - 1..] == labels[i..];
    }
  }

  lemma {:induction false} JoinShrinks(labels: seq<bytes>, i: nat, j: nat)
    requires i < j < |labels|
    ensures |Join(labels[i..], [DOT])| > |Join(labels[j..], [DOT])|
    decreases j - i
  {
    assert labels[i..][1..] == labels[i + 1..];
    if i + 1 < j { JoinShrinks(labels, i + 1, j); }
  }

  /** Longest first: each domain is shorter than all before it, so no name is looked up twice. */
  lemma DomainsShrink(host: bytes, i: nat, j: nat)
    requires i < j < |Domains(host)|
    ensures |Domains(host)[i]| > |Domains(host)[j]|
  {
    var labels := Labels(host);
    DomainsFromLength(labels);
    DomainsFromAt(labels, i);
    DomainsFromAt(labels, j);
    JoinShrinks(labels, i, j);
  }

  /** A label without white space at its ends. */
  predicate Tidy(part: bytes) {
    SpacePrefix(part) == 0 && SpaceSuffix(part) == 0
  }

  ghost predicate TidyLabels(labels: seq<bytes>) {
    && labels != [] && labels[|labels| - 1] != []
    && forall l | l in labels :: Tidy(l) && DOT !in l
  }

  /** No question is asked for two domains of `host`. */
  ghost predicate QuestionsDiffer(host: bytes) {
    var names := Domains(host);
    forall i, j | 0 <= i < j < |names| && Encodable(names[i]) && Encodable(names[j]) ::
      Trimmed(names[i]) != Trimmed(names[j])
  }

  /** Label `i` is empty and those after it can all be sent. */
  predicate SilentLabel(labels: seq<bytes>, i: nat) {
    i + 1 < |labels| && labels[i] == [] && forall l | l in labels[i + 1..] :: FitsLabel(l)
  }

  /** Different names lead to different questions, exactly when no empty label
      stands before labels that can all be sent: it is trimmed away. */
  lemma QuestionsDifferExactly(host: bytes)
    requires forall l | l in Labels(host) :: Tidy(l)
    ensures QuestionsDiffer(host) <==> forall i: nat :: !SilentLabel(Labels(host), i)
  {
    var labels, names := Labels(host), Domains(host);
    if names != [] {
      LastLabel(host);
      DomainsFromLength(labels);
      hide Domains, Trimmed, Encodable, Labels, TidyLabels;
      forall i: nat | SilentLabel(labels, i)
        ensures !QuestionsDiffer(host)
      {
        SilentLabelRepeats(host, i);
      }
      if forall i: nat :: !SilentLabel(labels, i) {
        forall i, j | 0 <= i < j < |names| && Encodable(names[i]) && Encodable(names[j])
          ensures Trimmed(names[i]) != Trimmed(names[j])
        {
          EncodableIsTrimmed(host, i);
          EncodableIsTrimmed(host, j);
          DomainsShrink(host, i, j);
        }
      }
    }
  }

  lemma LastLabel(host: bytes)
    requires Domains(host) != [] && forall l | l in Labels(host) :: Tidy(l)
    ensures TidyLabels(Labels(host)) && Domains(host) == DomainsFrom(Labels(host))
  {
    var labels := Labels(host);
    assert Join(labels, [DOT]) == Trimmed(host);
    LastOfJoin(labels);
  }

  lemma {:induction false} LastOfJoin(labels: seq<bytes>)
    requires labels != []
    ensures |labels| > 1 && labels[|labels| - 1] == [] ==>
      Join(labels, [DOT]) != [] && Join(labels, [DOT])[|Join(labels, [DOT])| - 1] == DOT
    ensures |labels| == 1 ==> Join(labels, [DOT]) == labels[0]
  {
    if |labels| > 1 { LastOfJoin(labels[1..]); }
  }

  /** A domain read back from its labels. */
  lemma TrimmedDomain(labels: seq<bytes>)
    requires TidyLabels(labels)
    ensures var name := Join(labels, [DOT]);
            if labels[0] == [] then
              |labels| > 1 && TidyLabels(labels[1..]) && Trimmed(name) == Trimmed(Join(labels[1..], [DOT]))
            else Trimmed(name) == name && Labels(name) == labels && name != []
  {
    var name := Join(labels, [DOT]);
    assert Labels(name) == Split(Trimmed(name), DOT) && forall l | l in labels :: DOT !in l;
    FirstLabel(labels);
    hide *;
    NoSpaceAround(labels);
    TrimmedStart(name);
    SplitOfJoin(labels, DOT);
    if labels[0] == [] {
      NoSpaceAround(labels[1..]);
      TrimmedStart(Join(labels[1..], [DOT]));
    }
  }

  /** Where the first label ends, the others begin. */
  lemma FirstLabel(labels: seq<bytes>)
    requires TidyLabels(labels)
    ensures labels[0] == [] ==>
      && |labels| > 1 && TidyLabels(labels[1..])
      && Join(labels, [DOT]) != [] && Join(labels, [DOT])[0] == DOT
      && Join(labels, [DOT])[1..] == Join(labels[1..], [DOT])
    ensures labels[0] != [] ==> Join(labels, [DOT]) != [] && Join(labels, [DOT])[0] != DOT
  {
    if labels[0] == [] {
      assert labels[1..][|labels[1..]| - 1] == labels[|labels| - 1];
    } else {
      assert labels[0][0] in labels[0] && labels[0] in labels;
    }
  }

  lemma TrimmedStart(name: bytes)
    requires name != [] && SpacePrefix(name) == 0 && SpaceSuffix(name) == 0 && name[|name| - 1] != DOT
    ensures Trimmed(name) == Trim(name, {DOT}) == if name[0] == DOT then Trim(name[1..], {DOT}) else name
  {
    hide SpacePrefix, SpaceSuffix;
  }

  /** The name that tidy labels make is read back as those labels. */
  lemma NameOfTidyLabels(labels: seq<bytes>)
    requires TidyLabels(labels) && labels[0] != []
    ensures var name := Join(labels, [DOT]);
            Trimmed(name) == name && Labels(name) == labels && Domains(name) == DomainsFrom(labels)
  {
    TrimmedDomain(labels);
  }

  lemma {:induction false} NoSpaceAround(labels: seq<bytes>)
    requires TidyLabels(labels)
    ensures var name := Join(labels, [DOT]);
            && name != [] && SpacePrefix(name) == 0 && SpaceSuffix(name) == 0 && name[|name| - 1] != DOT
  {
    var first := labels[0];
    assert first in labels;
    if |labels| > 1 {
      var rest := Join(labels[1..], [DOT]);
      NoSpaceAround(labels[1..]);
      NoSpaceBefore(first, rest);
    } else {
      assert first[|first| - 1] in first;
    }
  }

  lemma NoSpaceBefore(first: bytes, rest: bytes)
    requires Tidy(first) && rest != [] && SpaceSuffix(rest) == 0
    ensures var name := first + [DOT] + rest;
            SpacePrefix(name) == 0 && SpaceSuffix(name) == 0 && name[|name| - 1] == rest[|rest| - 1]
  {
    var name := first + [DOT] + rest;
    var n, m := |name|, |rest|;
    assert name[n - 1] == rest[m - 1];
    assert name[n - 2] == if m > 1 then rest[m - 2] else DOT;
    assert m > 1 ==> name[n - 3] == if m > 2 then rest[m - 3] else DOT;
    assert SpaceSuffix(name) == 0;
    assert name[0] == if first != [] then first[0] else DOT;
    assert first != [] ==> name[1] == if |first| > 1 then first[1] else DOT;
    assert |first| > 1 ==> name[2] == if |first| > 2 then first[2] else DOT;
    assert SpacePrefix(name) == 0;
  }

  lemma DomainLabels(host: bytes, i: nat)
    requires TidyLabels(Labels(host)) && Domains(host) == DomainsFrom(Labels(host)) && i < |Labels(host)|
    ensures |Domains(host)| == |Labels(host)|
    ensures TidyLabels(Labels(host)[i..]) && Domains(host)[i] == Join(Labels(host)[i..], [DOT])
  {
    DomainsFromAt(Labels(host), i);
  }

  lemma SilentLabelRepeats(host: bytes, i: nat)
    requires TidyLabels(Labels(host)) && Domains(host) == DomainsFrom(Labels(host)) && SilentLabel(Labels(host), i)
    ensures !QuestionsDiffer(host)
  {
    var labels, names := Labels(host), Domains(host);
    var rest := labels[i + 1..];
    DomainLabels(host, i);
    DomainLabels(host, i + 1);
    assert labels[i..][1..] == rest && rest[0] == labels[i + 1] && rest[0] in rest;
    assert FitsLabel(rest[0]);
    hide Trimmed, TidyLabels, Domains, Join, Split;
    TrimmedDomain(labels[i..]);
    TrimmedDomain(rest);
    assert names[i + 1] == Join(rest, [DOT]) && Trimmed(names[i]) == Trimmed(names[i + 1]) == names[i + 1];
    assert Labels(names[i + 1]) == rest;
    assert Encodable(names[i]) && Encodable(names[i + 1]);
  }

  lemma {:induction false} EncodableIsTrimmed(host: bytes, i: nat)
    requires TidyLabels(Labels(host)) && Domains(host) == DomainsFrom(Labels(host)) && i < |Domains(host)|
    requires |Domains(host)| == |Labels(host)|
    requires Encodable(Domains(host)[i]) && forall k: nat :: !SilentLabel(Labels(host), k)
    ensures Trimmed(Domains(host)[i]) == Domains(host)[i]
    ensures forall l | l in Labels(host)[i..] :: FitsLabel(l)
    decreases |Domains(host)| - i
  {
    var labels := Labels(host);
    DomainLabels(host, i);
    TrimmedDomain(labels[i..]);
    if labels[i] == [] {
      assert labels[i..][1..] == labels[i + 1..];
      DomainLabels(host, i + 1);
      hide Trimmed, TidyLabels, Domains, Join, Split;
      assert !SilentLabel(labels, i);
      EncodableIsTrimmed(host, i + 1);
    }
  }
}
