/** One check from input to graded report (internal/checker/check.go and
    `checkDNS` of internal/checker/dns.go), for every behaviour of the outside world. */
module CheckRun {
  import opened Bytes
  import opened Report
  import opened Targets
  import opened CaaLookup
  import opened Ciphers
  import opened Chain
  import opened Security

  /** What a completed handshake leaves behind. */
  datatype Connection = Connection(ocspResponseBytes: nat, sctCount: nat, peers: seq<Cert>)

  datatype Resolver = Resolver(
    lookupAddr: bytes -> Outcome<seq<bytes>, string>,
    lookupCNAME: bytes -> Outcome<bytes, string>,
    lookupIP4: bytes -> Outcome<seq<bytes>, string>,
    lookupIP6: bytes -> Outcome<seq<bytes>, string>)

  /** A request: its URL, the name offered in the TLS handshake and the Host header when overridden. */
  datatype Request = Request(url: bytes, serverName: bytes, host: Option<bytes>)

  datatype Response = Response(statusCode: int, securityHeaders: seq<HTTPHeaderCheck>)

  /** `refuse` says why no request can be made of a URL; `cancelled` whether the
      time was up when HEAD failed. */
  datatype Web = Web(
    refuse: bytes -> Option<string>,
    head: Request -> Outcome<Response, string>,
    get: Request -> Outcome<Response, string>,
    cancelled: bool)

  /** Everything a check learns from outside the program. */
  datatype World = World(
    parsers: Parsers,
    versionValue: string -> Outcome<u16, string>,
    resolver: Resolver,
    net: Network,
    connect: (Target, bytes, u16, u16) -> Outcome<Connection, string>,
    suites: seq<CipherSuite>,
    handshakes: (Target, bytes) -> Handshakes,
    x509: X509,
    web: Web)

  datatype CheckError =
    | BadTLSMin(text: string)
    | BadTLSMax(text: string)
    | MinAboveMax
    | BadTarget(error: TargetError)

  // ----- What a run collects -----

  /** `sniName` */
  function SNIName(t: Target, opt: Options): bytes {
    if opt.serverName != [] then opt.serverName
    else if t.isIP then []
    else t.host
  }

  function InfoOf(t: Target, opt: Options): TargetInfo {
    TargetInfo(t, SNIName(t, opt), VerifyName(t, opt))
  }

  /** The target that a check starts on, or why it does not start. */
  function Admitted(input: bytes, opt: Options, w: World): Outcome<Target, CheckError> {
    var lo, hi := w.versionValue(opt.tlsMin), w.versionValue(opt.tlsMax);
    if lo.Err? then Err(BadTLSMin(lo.error))
    else if hi.Err? then Err(BadTLSMax(hi.error))
    else if lo.value != 0 && hi.value != 0 && lo.value > hi.value then Err(MinAboveMax)
    else
      match TargetOf(input, opt, w.parsers)
      case Err(e) => Err(BadTarget(e))
      case Ok(t) => Ok(t)
  }

  function Bound(w: World, raw: string): u16 {
    if w.versionValue(raw).Ok? then w.versionValue(raw).value else 0
  }

  /** A run that stays on plain HTTP. */
  predicate Plain(t: Target, opt: Options) {
    t.scheme == "http" && !opt.forceTLS
  }

  /** The main handshake. */
  function Connecting(t: Target, opt: Options, w: World): Outcome<Connection, string> {
    w.connect(t, SNIName(t, opt), Bound(w, opt.tlsMin), Bound(w, opt.tlsMax))
  }

  predicate Connected(t: Target, opt: Options, w: World) {
    !Plain(t, opt) && Connecting(t, opt, w).Ok?
  }

  /** The certificates a connected run was shown. */
  function Peers(t: Target, opt: Options, w: World): seq<Cert> {
    if Connected(t, opt, w) then Connecting(t, opt, w).value.peers else []
  }

  function VersionsProbed(hs: Handshakes): seq<TLSVersionSupport> {
    seq(|ALL_VERSIONS|, i requires 0 <= i < |ALL_VERSIONS| => ProbedVersion(hs, ALL_VERSIONS[i]))
  }

  function CiphersProbed(suites: seq<CipherSuite>, hs: Handshakes): seq<TLSCipherSupport> {
    var pairs := Pairs(CIPHER_VERSIONS, suites);
    seq(|pairs|, i requires 0 <= i < |pairs| => Entry(hs, pairs[i]))
  }

  function AttemptedTLS(t: Target, opt: Options): TLSInfo {
    NO_TLS.(attempted := true, sni := SNIName(t, opt))
  }

  function ConnectedTLS(t: Target, opt: Options, w: World, c: Connection): TLSInfo {
    var hs := w.handshakes(t, SNIName(t, opt));
    AttemptedTLS(t, opt).(
      connected := true,
      ocspResponseBytes := c.ocspResponseBytes,
      sctCount := c.sctCount,
      peerCertificateCount := |c.peers|,
      supportedVersions := if opt.skipTLSProbe then [] else VersionsProbed(hs),
      supportedCiphers := if opt.skipCiphers then [] else CiphersProbed(w.suites, hs))
  }

  function TLSOf(t: Target, opt: Options, w: World): TLSInfo {
    if Plain(t, opt) then NO_TLS
    else
      match Connecting(t, opt, w)
      case Err(e) => AttemptedTLS(t, opt).(error := e)
      case Ok(c) => ConnectedTLS(t, opt, w, c)
  }

  function CertificatesInfo(certs: seq<Cert>): seq<CertificateInfo> {
    seq(|certs|, i requires 0 <= i < |certs| => certs[i].info)
  }

  const HTTP_PREFIX: bytes := [104, 116, 116, 112, 58, 47, 47]
  const HTTPS_PREFIX: bytes := [104, 116, 116, 112, 115, 58, 47, 47]

  function RequestOf(t: Target, opt: Options): Request {
    var sni := SNIName(t, opt);
    Request((if t.scheme == "http" then HTTP_PREFIX else HTTPS_PREFIX) + t.address + t.path,
            if t.scheme == "https" then sni else [],
            if t.isIP && sni != [] then Some(sni) else None)
  }

  /** What a request comes to: HEAD, then GET should HEAD fail in time. */
  function Fetched(web: Web, request: Request): Outcome<Response, string> {
    if web.refuse(request.url).Some? then Err(web.refuse(request.url).value)
    else if web.head(request).Ok? || web.cancelled then web.head(request)
    else web.get(request)
  }

  predicate AsksHTTP(t: Target, opt: Options, w: World) {
    !opt.skipHTTP && (Plain(t, opt) || Connected(t, opt, w))
  }

  function HTTPOf(t: Target, opt: Options, w: World): HTTPInfo {
    if !AsksHTTP(t, opt, w) then NO_HTTP
    else
      var request := RequestOf(t, opt);
      var attempt := NO_HTTP.(attempted := true, plaintext := t.scheme == "http", url := request.url);
      match Fetched(w.web, request)
      case Err(e) => attempt.(error := e)
      case Ok(answer) =>
        attempt.(reachable := true, statusCode := answer.statusCode, securityHeaders := answer.securityHeaders)
  }

  function DNSOf(t: Target, opt: Options, w: World): DNSInfo {
    var d := NO_DNS.(attempted := true, hostname := t.host);
    if opt.skipDNS then NO_DNS
    else if t.isIP then
      match w.resolver.lookupAddr(t.host)
      case Err(e) => d.(error := e)
      case Ok(names) => d.(ptr := names)
    else
      var (caaHost, caa) := RelevantSet(Domains(t.host), Lookup(w.net));
      d.(cname := Answered(w.resolver.lookupCNAME(t.host), []),
         a := Answered(w.resolver.lookupIP4(t.host), []),
         aaaa := Answered(w.resolver.lookupIP6(t.host), []),
         caaHost := caaHost,
         caa := caa)
  }

  function Answered<T>(answer: Outcome<T, string>, otherwise: T): T {
    if answer.Ok? then answer.value else otherwise
  }

  /** Why name resolution warned, if it did. */
  function DNSWarning(t: Target, opt: Options, w: World): Option<string> {
    if opt.skipDNS then None
    else if t.isIP then
      if w.resolver.lookupAddr(t.host).Err?
      then Some("dns: reverse lookup failed: " + w.resolver.lookupAddr(t.host).error)
      else None
    else
      if w.resolver.lookupIP4(t.host).Err?
      then Some("dns: A lookup failed: " + w.resolver.lookupIP4(t.host).error)
      else None
  }

  function Listed(o: Option<string>): seq<string> {
    if o.Some? then [o.value] else []
  }

  function PlainHTTPText(): string {
    Join(["plain HTTP ", "does not ", "provide a TLS ", "certificate to verify", "; use https:// or ", "--force-tls ",
          "for TLS services"], "")
  }

  /** Once connected, what was warned of before the handshake is gone. */
  function WarningsOf(t: Target, opt: Options, w: World): seq<string> {
    if Plain(t, opt) then Listed(DNSWarning(t, opt, w)) + [PlainHTTPText()]
    else if Connected(t, opt, w) then VerifyWarningsOf(w.x509, Peers(t, opt, w), t, opt)
    else Listed(DNSWarning(t, opt, w))
  }

  function VerificationOfRun(t: Target, opt: Options, w: World): VerificationInfo {
    if Connected(t, opt, w) then VerificationOf(w.x509, Peers(t, opt, w), t, opt) else NO_VERIFICATION
  }

  /** All that a run collects. */
  function EvidenceOf(t: Target, opt: Options, w: World): Evidence {
    Evidence(InfoOf(t, opt), if Plain(t, opt) then "HTTP" else "TLS",
             TLSOf(t, opt, w), HTTPOf(t, opt, w), DNSOf(t, opt, w),
             VerificationOfRun(t, opt, w), CertificatesInfo(Peers(t, opt, w)), WarningsOf(t, opt, w))
  }

  function ErrorsOfRun(t: Target, opt: Options, w: World): seq<string> {
    TLSErrors(t, opt, w) + HTTPErrors(t, opt, w) + UnfinishedErrors(t, opt, w)
  }

  function TLSErrors(t: Target, opt: Options, w: World): seq<string> {
    if !Plain(t, opt) && Connecting(t, opt, w).Err? then ["tls: " + Connecting(t, opt, w).error] else []
  }

  function HTTPErrors(t: Target, opt: Options, w: World): seq<string> {
    var answer := Fetched(w.web, RequestOf(t, opt));
    if AsksHTTP(t, opt, w) && answer.Err? then ["http: " + answer.error] else []
  }

  function UnfinishedText(): string {
    "HTTPS target did not complete a TLS handshake"
  }

  function UnfinishedErrors(t: Target, opt: Options, w: World): seq<string> {
    if !Plain(t, opt) && !Connected(t, opt, w) && t.scheme == "https" then [UnfinishedText()] else []
  }

  // ----- The program -----

  method CheckDNS(t: Target, opt: Options, w: World, r: Result)
    requires !opt.skipDNS && r.dns == NO_DNS
    modifies r`dns, r`warnings
    ensures r.dns == DNSOf(t, opt, w)
    ensures r.warnings == old(r.warnings) + Listed(DNSWarning(t, opt, w))
  {
    hide RelevantSet, Domains;
    r.dns := r.dns.(attempted := true, hostname := t.host);
    if t.isIP {
      var ptr := w.resolver.lookupAddr(t.host);
      if ptr.Err? {
        r.dns := r.dns.(error := ptr.error);
        r.warnings := r.warnings + ["dns: reverse lookup failed: " + ptr.error];
        return;
      }
      r.dns := r.dns.(ptr := ptr.value);
      return;
    }
    var cname := w.resolver.lookupCNAME(t.host);
    if cname.Ok? {
      r.dns := r.dns.(cname := cname.value);
    }
    var ip4 := w.resolver.lookupIP4(t.host);
    if ip4.Ok? {
      r.dns := r.dns.(a := ip4.value);
    } else {
      r.warnings := r.warnings + ["dns: A lookup failed: " + ip4.error];
    }
    var ip6 := w.resolver.lookupIP6(t.host);
    if ip6.Ok? {
      r.dns := r.dns.(aaaa := ip6.value);
    }
    var caaHost, caa, _ := LookupCAAHierarchy(w.net, t.host);
    r.dns := r.dns.(caaHost := caaHost, caa := caa);
  }

  method CheckHTTP(t: Target, opt: Options, w: World, r: Result)
    requires AsksHTTP(t, opt, w) && r.http == NO_HTTP
    modifies r`http, r`errors
    ensures r.http == HTTPOf(t, opt, w)
    ensures r.errors == old(r.errors) + HTTPErrors(t, opt, w)
  {
    var request := RequestOf(t, opt);
    r.http := r.http.(attempted := true, plaintext := t.scheme == "http", url := request.url);
    var refusal := w.web.refuse(request.url);
    if refusal.Some? {
      r.http := r.http.(error := refusal.value);
      r.errors := r.errors + ["http: " + refusal.value];
      return;
    }
    var answer := w.web.head(request);
    if answer.Err? && !w.web.cancelled {
      answer := w.web.get(request);
    }
    if answer.Err? {
      r.http := r.http.(error := answer.error);
      r.errors := r.errors + ["http: " + answer.error];
      return;
    }
    r.http := r.http.(reachable := true, statusCode := answer.value.statusCode,
                      securityHeaders := answer.value.securityHeaders);
  }

  method CheckTLS(t: Target, opt: Options, minVersion: u16, maxVersion: u16, w: World, r: Result)
    requires !Plain(t, opt) && minVersion == Bound(w, opt.tlsMin) && maxVersion == Bound(w, opt.tlsMax)
    requires r.tls == NO_TLS && r.verification == NO_VERIFICATION && r.certificates == []
    modifies r`tls, r`verification, r`certificates, r`warnings, r`errors
    ensures r.tls == TLSOf(t, opt, w)
    ensures r.verification == VerificationOfRun(t, opt, w)
    ensures r.certificates == CertificatesInfo(Peers(t, opt, w))
    ensures r.warnings == if Connected(t, opt, w) then WarningsOf(t, opt, w) else old(r.warnings)
    ensures r.errors == old(r.errors) + TLSErrors(t, opt, w)
  {
    assert CertificatesInfo([]) == [];
    hide VerificationOf, VerifyWarningsOf, Bound, SNIName, ConnectedTLS, CertificatesInfo, DNSWarning, PlainHTTPText,
      Listed;
    r.tls := r.tls.(attempted := true, sni := SNIName(t, opt));
    var connection := w.connect(t, SNIName(t, opt), minVersion, maxVersion);
    if connection.Err? {
      r.tls := r.tls.(error := connection.error);
      r.errors := r.errors + ["tls: " + connection.error];
      return;
    }
    InspectConnection(connection.value, t, opt, w, r);
  }

  /** The part of `checkTLS` after a completed handshake. */
  method InspectConnection(state: Connection, t: Target, opt: Options, w: World, r: Result)
    requires r.tls == AttemptedTLS(t, opt)
    modifies r`tls, r`verification, r`certificates, r`warnings
    ensures r.tls == ConnectedTLS(t, opt, w, state)
    ensures r.certificates == CertificatesInfo(state.peers)
    ensures r.verification == VerificationOf(w.x509, state.peers, t, opt)
    ensures r.warnings == VerifyWarningsOf(w.x509, state.peers, t, opt)
  {
    hide *;
    r.tls := r.tls.(connected := true, ocspResponseBytes := state.ocspResponseBytes, sctCount := state.sctCount,
                    peerCertificateCount := |state.peers|);
    r.certificates := CertificatesInfo(state.peers);
    r.verification, r.warnings := VerifyPeerCertificates(w.x509, state.peers, t, opt);
    ghost var before := r.tls;
    Probe(t, opt, w, r);
    Inspected(t, opt, w, state, before, r.tls);
  }

  lemma Inspected(t: Target, opt: Options, w: World, c: Connection, before: TLSInfo, after: TLSInfo)
    requires before == AttemptedTLS(t, opt).(connected := true, ocspResponseBytes := c.ocspResponseBytes,
                                             sctCount := c.sctCount,
                                             peerCertificateCount := |c.peers|)
    requires IsProbed(t, opt, w, before, after)
    ensures after == ConnectedTLS(t, opt, w, c)
  {
  }

  predicate IsProbed(t: Target, opt: Options, w: World, before: TLSInfo, after: TLSInfo) {
    var hs := w.handshakes(t, SNIName(t, opt));
    && after == before.(supportedVersions := after.supportedVersions, supportedCiphers := after.supportedCiphers)
    && after.supportedVersions == (if opt.skipTLSProbe then before.supportedVersions else VersionsProbed(hs))
    && after.supportedCiphers == (if opt.skipCiphers then before.supportedCiphers else CiphersProbed(w.suites, hs))
  }

  /** The probes at the end of `checkTLS`. */
  method Probe(t: Target, opt: Options, w: World, r: Result)
    modifies r`tls
    ensures IsProbed(t, opt, w, old(r.tls), r.tls)
  {
    hide SNIName, VersionsProbed, CiphersProbed;
    if !opt.skipTLSProbe {
      var versions := ProbeVersions(w.handshakes(t, SNIName(t, opt)));
      r.tls := r.tls.(supportedVersions := versions);
    }
    if !opt.skipCiphers {
      var ciphers := ProbeCiphers(w.suites, w.handshakes(t, SNIName(t, opt)));
      r.tls := r.tls.(supportedCiphers := ciphers);
    }
  }

  method ProbeVersions(hs: Handshakes) returns (out: seq<TLSVersionSupport>)
    ensures out == VersionsProbed(hs)
  {
    out := ProbeTLSVersions(hs);
  }

  method ProbeCiphers(suites: seq<CipherSuite>, hs: Handshakes) returns (out: seq<TLSCipherSupport>)
    ensures out == CiphersProbed(suites, hs)
  {
    out := ProbeTLSCiphers(suites, hs);
  }

  /** What the steps that a run leaves out would have set. */
  lemma Untouched(t: Target, opt: Options, w: World)
    ensures opt.skipDNS ==> DNSOf(t, opt, w) == NO_DNS && DNSWarning(t, opt, w) == None
    ensures !AsksHTTP(t, opt, w) ==> HTTPOf(t, opt, w) == NO_HTTP && HTTPErrors(t, opt, w) == []
    ensures Plain(t, opt) ==> TLSOf(t, opt, w) == NO_TLS && TLSErrors(t, opt, w) == []
    ensures !Connected(t, opt, w) ==> VerificationOfRun(t, opt, w) == NO_VERIFICATION && Peers(t, opt, w) == []
    ensures TLSOf(t, opt, w).connected == Connected(t, opt, w)
    ensures CertificatesInfo([]) == []
  {
  }

  /** A plain run, step by step. */
  lemma PlainRun(t: Target, opt: Options, w: World)
    requires Plain(t, opt)
    ensures var warnings := Listed(DNSWarning(t, opt, w)) + [PlainHTTPText()];
            EvidenceOf(t, opt, w) == Evidence(InfoOf(t, opt), "HTTP", NO_TLS, HTTPOf(t, opt, w), DNSOf(t, opt, w),
                                              NO_VERIFICATION, [], warnings)
    ensures ErrorsOfRun(t, opt, w) == HTTPErrors(t, opt, w)
    ensures AsksHTTP(t, opt, w) == !opt.skipHTTP
  {
    Untouched(t, opt, w);
    hide DNSWarning, PlainHTTPText, InfoOf, TLSOf, HTTPOf, DNSOf, VerificationOfRun, Peers, CertificatesInfo,
      HTTPErrors,
      TLSErrors, Listed;
  }

  /** A run that attempts a handshake, step by step. */
  lemma TLSRun(t: Target, opt: Options, w: World)
    requires !Plain(t, opt)
    ensures var warnings := if Connected(t, opt, w) then WarningsOf(t, opt, w) else Listed(DNSWarning(t, opt, w));
            var certificates := CertificatesInfo(Peers(t, opt, w));
            EvidenceOf(t, opt, w) == Evidence(InfoOf(t, opt), "TLS",
                                              TLSOf(t, opt, w), HTTPOf(t, opt, w), DNSOf(t, opt, w),
                                              VerificationOfRun(t, opt, w), certificates, warnings)
    ensures var unfinished := if !Connected(t, opt, w) && t.scheme == "https" then [UnfinishedText()] else [];
            ErrorsOfRun(t, opt, w) == TLSErrors(t, opt, w) + HTTPErrors(t, opt, w) + unfinished
    ensures AsksHTTP(t, opt, w) == (Connected(t, opt, w) && !opt.skipHTTP)
  {
    hide DNSWarning, UnfinishedText, InfoOf, TLSOf, HTTPOf, DNSOf, TLSErrors, HTTPErrors, VerificationOfRun,
      CertificatesInfo;
  }

  /** What a run holds before the handshake, or the plain request. */
  function Prepared(t: Target, opt: Options, w: World): Evidence {
    hide DNSOf, DNSWarning, InfoOf;
    Evidence(InfoOf(t, opt), "", NO_TLS, NO_HTTP, DNSOf(t, opt, w), NO_VERIFICATION, [], Listed(DNSWarning(t, opt, w)))
  }

  /** `r` is the report of the run on `t`. */
  ghost predicate Reports(r: Result, t: Target, opt: Options, w: World)
    reads r
  {
    hide *;
    && r.Snapshot() == EvidenceOf(t, opt, w)
    && r.errors == ErrorsOfRun(t, opt, w)
    && r.security == Analysis(r.Snapshot())
  }

  /** A check refuses its input, or reports what the run collects and its analysis. */
  method Check(input: bytes, opt: Options, w: World) returns (r: Outcome<Result, CheckError>)
    ensures r.Ok? ==> fresh(r.value)
    ensures match Admitted(input, opt, w)
            case Err(e) => r == Err(e)
            case Ok(t) => r.Ok? && Reports(r.value, t, opt, w)
  {
    hide TargetOf, TLSOf, HTTPOf, DNSOf, VerificationOfRun, DNSWarning, Reports, InfoOf, TLSErrors, HTTPErrors;
    var minVersion := w.versionValue(opt.tlsMin);
    if minVersion.Err? {
      return Err(BadTLSMin(minVersion.error));
    }
    var maxVersion := w.versionValue(opt.tlsMax);
    if maxVersion.Err? {
      return Err(BadTLSMax(maxVersion.error));
    }
    if minVersion.value != 0 && maxVersion.value != 0 && minVersion.value > maxVersion.value {
      return Err(MinAboveMax);
    }
    var parsed := ParseTarget(input, opt, w.parsers);
    if parsed.Err? {
      return Err(BadTarget(parsed.error));
    }
    var t := parsed.value;
    var result := new Result(InfoOf(t, opt));
    Untouched(t, opt, w);
    if !opt.skipDNS {
      CheckDNS(t, opt, w, result);
    }
    AcceptedTarget(input, opt, w.parsers, t);
    if t.scheme == "http" && !opt.forceTLS {
      FinishPlain(t, opt, w, result);
    } else {
      FinishTLS(t, opt, minVersion.value, maxVersion.value, w, result);
    }
    return Ok(result);
  }

  /** The rest of a run that stays on plain HTTP. */
  method FinishPlain(t: Target, opt: Options, w: World, result: Result)
    requires Plain(t, opt)
    requires result.Snapshot() == Prepared(t, opt, w) && result.errors == []
    modifies result
    ensures Reports(result, t, opt, w)
  {
    hide TLSOf, HTTPOf, DNSOf, VerificationOfRun, DNSWarning, PlainHTTPText, Analysis, CertificatesInfo, InfoOf,
      HTTPErrors;
    hide EvidenceOf, ErrorsOfRun, AsksHTTP, Plain, Connected, Reports, SNIName, VerifyName;
    PlainRun(t, opt, w);
    Untouched(t, opt, w);
    result.protocol := "HTTP";
    if !opt.skipHTTP {
      CheckHTTP(t, opt, w, result);
    }
    result.warnings := result.warnings + [PlainHTTPText()];
    assert result.Snapshot() == EvidenceOf(t, opt, w);
    result.security := AnalyzeSecurity(result);
    assert result.Snapshot() == EvidenceOf(t, opt, w);
    Reported(result, t, opt, w);
  }

  lemma Reported(r: Result, t: Target, opt: Options, w: World)
    requires r.Snapshot() == EvidenceOf(t, opt, w) && r.errors == ErrorsOfRun(t, opt, w)
    requires r.security == Analysis(EvidenceOf(t, opt, w))
    ensures Reports(r, t, opt, w)
  {
    hide Analysis, EvidenceOf, ErrorsOfRun;
  }

  /** The rest of a run that attempts a handshake. */
  method FinishTLS(t: Target, opt: Options, minVersion: u16, maxVersion: u16, w: World, result: Result)
    requires !Plain(t, opt) && minVersion == Bound(w, opt.tlsMin) && maxVersion == Bound(w, opt.tlsMax)
    requires t.scheme == "http" || t.scheme == "https"
    requires result.Snapshot() == Prepared(t, opt, w) && result.errors == []
    modifies result
    ensures Reports(result, t, opt, w)
  {
    hide TLSOf, HTTPOf, DNSOf, VerificationOfRun, DNSWarning, Analysis, CertificatesInfo, InfoOf, HTTPErrors, TLSErrors;
    hide EvidenceOf, ErrorsOfRun, AsksHTTP, Connected, Reports, WarningsOf, UnfinishedText, Bound, Peers, SNIName,
      VerifyName;
    TLSRun(t, opt, w);
    Untouched(t, opt, w);
    result.protocol := "TLS";
    CheckTLS(t, opt, minVersion, maxVersion, w, result);
    if result.tls.connected && !opt.skipHTTP {
      CheckHTTP(t, opt, w, result);
    }
    if !result.tls.connected && t.scheme == "https" {
      result.errors := result.errors + [UnfinishedText()];
    }
    if !result.tls.connected && t.scheme != "https" && !opt.forceTLS {
      // The plain HTTP fallback: every accepted scheme is http or https.
      assert false;
    }
    assert result.Snapshot() == EvidenceOf(t, opt, w);
    result.security := AnalyzeSecurity(result);
    assert result.Snapshot() == EvidenceOf(t, opt, w);
    Reported(result, t, opt, w);
  }
}
