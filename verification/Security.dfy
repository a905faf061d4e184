/** From collected evidence to findings (internal/checker/security.go). */
module Security {
  import opened Bytes
  import opened Report
  import opened Text
  import opened Grading
  import Chain
  import opened Ciphers

  /** The findings collected so far. */
  class FindingList {
    var items: seq<SecurityFinding>

    constructor ()
      ensures items == []
    {
      items := [];
    }

    method Add(id: FindingID, severity: Severity, status: Status, detail: string)
      modifies this
      ensures items == old(items) + [SecurityFinding(id, severity, status, detail)]
    {
      items := items + [SecurityFinding(id, severity, status, detail)];
    }
  }

  function When(c: bool, id: FindingID, severity: Severity, status: Status, detail: string): seq<SecurityFinding> {
    if c then [SecurityFinding(id, severity, status, detail)] else []
  }

  // ----- Connection -----

  function BlankDash(s: string): string {
    if s == "" then "-" else s
  }

  function ConnectionFindings(e: Evidence): seq<SecurityFinding> {
    When(e.protocol == "HTTP" && e.http.plaintext, PlainHTTP, High, Fail, "")
    + When(e.tls.attempted && !e.tls.connected, TLSHandshake, Critical, Fail, BlankDash(e.tls.error))
    + When(e.tls.connected && e.tls.compression, TLSCompression, High, Fail, "")
    + When(e.tls.connected && !e.tls.compression, TLSCompression, Info, Pass, "")
  }

  method AddConnectionFindings(r: Result, findings: FindingList)
    modifies findings
    ensures findings.items == old(findings.items) + ConnectionFindings(r.Snapshot())
  {
    if r.protocol == "HTTP" && r.http.plaintext {
      findings.Add(PlainHTTP, High, Fail, "");
    }
    if r.tls.attempted && !r.tls.connected {
      findings.Add(TLSHandshake, Critical, Fail, BlankDash(r.tls.error));
    }
    if r.tls.connected {
      if r.tls.compression {
        findings.Add(TLSCompression, High, Fail, "");
      } else {
        findings.Add(TLSCompression, Info, Pass, "");
      }
    }
  }

  // ----- Trust -----

  function TrustFindings(v: VerificationInfo): seq<SecurityFinding> {
    if !v.checked then [] else VerdictFindings(v) + LeafStateFindings(v)
  }

  function VerdictFindings(v: VerificationInfo): seq<SecurityFinding> {
    When(v.verified, CertificateTrust, Info, Pass, "")
    + When(!v.verified, CertificateTrust, Critical, Fail, Join(v.errors, "; "))
    + When(v.expired, CertificateExpired, Critical, Fail, "")
  }

  function LeafStateFindings(v: VerificationInfo): seq<SecurityFinding> {
    When(v.notYetValid, CertificateNotYetValid, High, Fail, "")
    + When(v.selfSignedLeaf, SelfSignedLeaf, High, Fail, "")
    + When(!v.hostnameVerified && v.hostnameChecked, HostnameMismatch, Critical, Fail, "")
  }

  method AddVerdictFindings(v: VerificationInfo, findings: FindingList)
    modifies findings
    ensures findings.items == old(findings.items) + VerdictFindings(v)
  {
    if v.verified {
      findings.Add(CertificateTrust, Info, Pass, "");
    } else {
      findings.Add(CertificateTrust, Critical, Fail, Join(v.errors, "; "));
    }
    if v.expired {
      findings.Add(CertificateExpired, Critical, Fail, "");
    }
  }

  method AddLeafStateFindings(v: VerificationInfo, findings: FindingList)
    modifies findings
    ensures findings.items == old(findings.items) + LeafStateFindings(v)
  {
    if v.notYetValid {
      findings.Add(CertificateNotYetValid, High, Fail, "");
    }
    if v.selfSignedLeaf {
      findings.Add(SelfSignedLeaf, High, Fail, "");
    }
    if !v.hostnameVerified && v.hostnameChecked {
      findings.Add(HostnameMismatch, Critical, Fail, "");
    }
  }

  method AddTrustFindings(r: Result, findings: FindingList)
    modifies findings
    ensures findings.items == old(findings.items) + TrustFindings(r.verification)
  {
    hide VerdictFindings, LeafStateFindings;
    if r.verification.checked {
      AddVerdictFindings(r.verification, findings);
      AddLeafStateFindings(r.verification, findings);
    }
  }

  // ----- Leaf certificate -----

  predicate WeakSignatureName(name: string) {
    Contains(ToUpper(name), "SHA1") || Contains(ToUpper(name), "MD5")
  }

  function LeafFindings(certificates: seq<CertificateInfo>, sctCount: nat): seq<SecurityFinding> {
    if certificates == [] then []
    else
      StrengthFindings(certificates[0]) + PublicationFindings(certificates[0], sctCount)
  }

  function StrengthFindings(leaf: CertificateInfo): seq<SecurityFinding> {
    When(0 <= leaf.daysRemaining <= 14, ExpiresSoon, High, Warn, "")
    + When(14 < leaf.daysRemaining <= 30, ExpiresSoon, Medium, Warn, "")
    + When(WeakSignatureName(leaf.signatureAlgorithm), WeakSignature, High, Fail, "")
    + When(leaf.publicKeyAlgorithm == "RSA" && 0 < leaf.publicKeySize < 2048, WeakKey, High, Fail, "")
  }

  function PublicationFindings(leaf: CertificateInfo, sctCount: nat): seq<SecurityFinding> {
    When(leaf.ocspServers == [] && leaf.crlDistributionPoints == [], RevocationInfo, Medium, Warn, "")
    + When(leaf.embeddedSCTCount == 0 && sctCount == 0, CertificateTransparency, Medium, Warn, "")
  }

  method AddStrengthFindings(leaf: CertificateInfo, findings: FindingList)
    modifies findings
    ensures findings.items == old(findings.items) + StrengthFindings(leaf)
  {
    hide WeakSignatureName;
    if leaf.daysRemaining >= 0 && leaf.daysRemaining <= 14 {
      findings.Add(ExpiresSoon, High, Warn, "");
    } else if leaf.daysRemaining > 14 && leaf.daysRemaining <= 30 {
      findings.Add(ExpiresSoon, Medium, Warn, "");
    }
    if WeakSignatureName(leaf.signatureAlgorithm) {
      findings.Add(WeakSignature, High, Fail, "");
    }
    if leaf.publicKeyAlgorithm == "RSA" && leaf.publicKeySize > 0 && leaf.publicKeySize < 2048 {
      findings.Add(WeakKey, High, Fail, "");
    }
  }

  method AddPublicationFindings(leaf: CertificateInfo, sctCount: nat, findings: FindingList)
    modifies findings
    ensures findings.items == old(findings.items) + PublicationFindings(leaf, sctCount)
  {
    if |leaf.ocspServers| == 0 && |leaf.crlDistributionPoints| == 0 {
      findings.Add(RevocationInfo, Medium, Warn, "");
    }
    if leaf.embeddedSCTCount == 0 && sctCount == 0 {
      findings.Add(CertificateTransparency, Medium, Warn, "");
    }
  }

  method AddLeafFindings(r: Result, findings: FindingList)
    modifies findings
    ensures findings.items == old(findings.items) + LeafFindings(r.certificates, r.tls.sctCount)
  {
    hide StrengthFindings, PublicationFindings;
    if |r.certificates| > 0 {
      var leaf := r.certificates[0];
      AddStrengthFindings(leaf, findings);
      AddPublicationFindings(leaf, r.tls.sctCount, findings);
    }
  }

  // ----- Chain installation -----

  function ChainFindings(warnings: seq<string>): seq<SecurityFinding> {
    if warnings == [] then []
    else
      When(Chain.MentionsChain(warnings[0]), ChainInstallation, Medium, Warn, warnings[0])
      + ChainFindings(warnings[1..])
  }

  method AddChainFindings(r: Result, findings: FindingList)
    modifies findings
    ensures findings.items == old(findings.items) + ChainFindings(r.warnings)
  {
    hide Chain.MentionsChain;
    ghost var before := findings.items;
    var warnings := r.warnings;
    assert warnings[0..] == warnings;
    for i := 0 to |warnings|
      invariant before + ChainFindings(warnings) == findings.items + ChainFindings(warnings[i..])
    {
      assert warnings[i..][1..] == warnings[i + 1..];
      if Chain.MentionsChain(warnings[i]) {
        findings.Add(ChainInstallation, Medium, Warn, warnings[i]);
      }
    }
  }

  // ----- Protocol versions -----

  predicate VersionSupported(tls: TLSInfo, version: string) {
    exists v | v in tls.supportedVersions :: v.version == version && v.supported
  }

  method TLSVersionSupported(r: Result, version: string) returns (found: bool)
    ensures found == VersionSupported(r.tls, version)
  {
    var items := r.tls.supportedVersions;
    for i := 0 to |items|
      invariant forall v | v in items[..i] :: !(v.version == version && v.supported)
    {
      if items[i].version == version && items[i].supported {
        return true;
      }
    }
    assert items[..|items|] == items;
    return false;
  }

  function ProtocolFindings(tls: TLSInfo): seq<SecurityFinding> {
    ObsoleteFindings(tls) + ModernFindings(tls)
  }

  function ObsoleteFindings(tls: TLSInfo): seq<SecurityFinding> {
    When(VersionSupported(tls, "TLS 1.0"), TLS10, High, Fail, "")
    + When(VersionSupported(tls, "TLS 1.1"), TLS11, Medium, Fail, "")
  }

  function ModernFindings(tls: TLSInfo): seq<SecurityFinding> {
    var tls12, tls13 := VersionSupported(tls, "TLS 1.2"), VersionSupported(tls, "TLS 1.3");
    When(!tls12 && !tls13 && tls.supportedVersions != [], ModernTLSMissing, Critical, Fail, "")
    + When(tls13, TLS13, Info, Pass, "")
    + When(!tls13 && tls.supportedVersions != [], TLS13, Info, Note, "")
  }

  method AddObsoleteFindings(r: Result, findings: FindingList)
    modifies findings
    ensures findings.items == old(findings.items) + ObsoleteFindings(r.tls)
  {
    hide VersionSupported;
    var tls10 := TLSVersionSupported(r, "TLS 1.0");
    var tls11 := TLSVersionSupported(r, "TLS 1.1");
    if tls10 {
      findings.Add(TLS10, High, Fail, "");
    }
    if tls11 {
      findings.Add(TLS11, Medium, Fail, "");
    }
  }

  method AddModernFindings(r: Result, findings: FindingList)
    modifies findings
    ensures findings.items == old(findings.items) + ModernFindings(r.tls)
  {
    hide VersionSupported;
    var tls12 := TLSVersionSupported(r, "TLS 1.2");
    var tls13 := TLSVersionSupported(r, "TLS 1.3");
    if !tls12 && !tls13 && |r.tls.supportedVersions| > 0 {
      findings.Add(ModernTLSMissing, Critical, Fail, "");
    }
    if tls13 {
      findings.Add(TLS13, Info, Pass, "");
    } else if |r.tls.supportedVersions| > 0 {
      findings.Add(TLS13, Info, Note, "");
    }
  }

  method AddProtocolFindings(r: Result, findings: FindingList)
    modifies findings
    ensures findings.items == old(findings.items) + ProtocolFindings(r.tls)
  {
    hide ObsoleteFindings, ModernFindings;
    AddObsoleteFindings(r, findings);
    AddModernFindings(r, findings);
  }

  // ----- Cipher suites -----

  /** Some accepted suite satisfies `p` (`supportedCipherWhere`). */
  predicate AnyAccepted(ciphers: seq<TLSCipherSupport>, p: TLSCipherSupport -> bool) {
    exists c | c in ciphers :: c.supported && p(c)
  }

  predicate LacksForwardSecrecy(c: TLSCipherSupport) {
    !c.forwardSecrecy
  }

  function CipherFindings(ciphers: seq<TLSCipherSupport>): seq<SecurityFinding> {
    if ciphers == [] then When(true, CipherScan, Info, NotTested, "")
    else
      When(AnyAccepted(ciphers, IsWeak), WeakCiphers, High, Fail, "")
      + When(!AnyAccepted(ciphers, IsWeak), WeakCiphers, Info, Pass, "")
      + When(AnyAccepted(ciphers, IsLegacy), LegacyCiphers, Medium, Warn, "")
      + When(AnyAccepted(ciphers, LacksForwardSecrecy), ForwardSecrecy, Medium, Warn, "")
      + When(!AnyAccepted(ciphers, LacksForwardSecrecy), ForwardSecrecy, Info, Pass, "")
  }

  /** One round of a counting loop. */
  lemma NextAccepted(ciphers: seq<TLSCipherSupport>, i: nat, p: TLSCipherSupport -> bool)
    requires i < |ciphers|
    ensures AnyAccepted(ciphers[..i + 1], p)
       <==> AnyAccepted(ciphers[..i], p) || (ciphers[i].supported && p(ciphers[i]))
  {
  }

  method AddCipherFindings(r: Result, findings: FindingList)
    modifies findings
    ensures findings.items == old(findings.items) + CipherFindings(r.tls.supportedCiphers)
  {
    hide AnyAccepted;
    var ciphers := r.tls.supportedCiphers;
    if |ciphers| == 0 {
      findings.Add(CipherScan, Info, NotTested, "");
      return;
    }
    var weak, legacy, noForwardSecrecy := CountAccepted(ciphers);
    if weak > 0 {
      findings.Add(WeakCiphers, High, Fail, "");
    } else {
      findings.Add(WeakCiphers, Info, Pass, "");
    }
    if legacy > 0 {
      findings.Add(LegacyCiphers, Medium, Warn, "");
    }
    if noForwardSecrecy > 0 {
      findings.Add(ForwardSecrecy, Medium, Warn, "");
    } else {
      findings.Add(ForwardSecrecy, Info, Pass, "");
    }
  }

  /** The counting loop of `addCipherFindings`. */
  method CountAccepted(ciphers: seq<TLSCipherSupport>) returns (weak: nat, legacy: nat, noForwardSecrecy: nat)
    ensures weak > 0 <==> AnyAccepted(ciphers, IsWeak)
    ensures legacy > 0 <==> AnyAccepted(ciphers, IsLegacy)
    ensures noForwardSecrecy > 0 <==> AnyAccepted(ciphers, LacksForwardSecrecy)
  {
    weak, legacy, noForwardSecrecy := 0, 0, 0;
    for i := 0 to |ciphers|
      invariant weak > 0 <==> AnyAccepted(ciphers[..i], IsWeak)
      invariant legacy > 0 <==> AnyAccepted(ciphers[..i], IsLegacy)
      invariant noForwardSecrecy > 0 <==> AnyAccepted(ciphers[..i], LacksForwardSecrecy)
    {
      NextAccepted(ciphers, i, IsWeak);
      NextAccepted(ciphers, i, IsLegacy);
      NextAccepted(ciphers, i, LacksForwardSecrecy);
      hide AnyAccepted;
      var cipher := ciphers[i];
      if !cipher.supported {
        continue;
      }
      if cipher.insecure || cipher.rc4 || cipher.tripleDES {
        weak := weak + 1;
      }
      if cipher.strength == Legacy || cipher.cbc {
        legacy := legacy + 1;
      }
      if !cipher.forwardSecrecy {
        noForwardSecrecy := noForwardSecrecy + 1;
      }
    }
    assert ciphers[..|ciphers|] == ciphers;
  }

  // ----- HTTP headers -----

  /** `HTTPHeaderCheck.StatusSeverity` */
  function StatusSeverity(h: HTTPHeaderCheck): Severity {
    match h.status
    case Fail => High
    case Warn => Medium
    case _ => Info
  }

  function HeaderID(name: string): FindingID {
    HTTPHeader("http_header_" + ToLower(Underscored(name)))
  }

  function HeaderFindings(checks: seq<HTTPHeaderCheck>): seq<SecurityFinding> {
    if checks == [] then []
    else
      When(!checks[0].status.Pass? && !checks[0].status.Note?,
           HeaderID(checks[0].name), StatusSeverity(checks[0]), checks[0].status, checks[0].description)
      + HeaderFindings(checks[1..])
  }

  method AddHTTPHeaderFindings(r: Result, findings: FindingList)
    modifies findings
    ensures findings.items == old(findings.items) + HeaderFindings(r.http.securityHeaders)
  {
    hide HeaderID;
    ghost var before := findings.items;
    var checks := r.http.securityHeaders;
    assert checks[0..] == checks;
    for i := 0 to |checks|
      invariant before + HeaderFindings(checks) == findings.items + HeaderFindings(checks[i..])
    {
      assert checks[i..][1..] == checks[i + 1..];
      var check := checks[i];
      if check.status.Pass? || check.status.Note? {
        continue;
      }
      findings.Add(HeaderID(check.name), StatusSeverity(check), check.status, check.description);
    }
  }

  // ----- DNS -----

  function DNSFindings(dns: DNSInfo, isIP: bool): seq<SecurityFinding> {
    if !dns.attempted || isIP then []
    else
      When(dns.caa == [], CAAMissing, Info, Note, "")
      + When(dns.caa != [], CAAPresent, Info, Pass, "")
      + When(dns.a == [] && dns.aaaa == [], DNSAddressMissing, High, Fail, "")
  }

  method AddDNSFindings(r: Result, findings: FindingList)
    modifies findings
    ensures findings.items == old(findings.items) + DNSFindings(r.dns, r.target.target.isIP)
  {
    if !r.dns.attempted || r.target.target.isIP {
      return;
    }
    if |r.dns.caa| == 0 {
      findings.Add(CAAMissing, Info, Note, "");
    } else {
      findings.Add(CAAPresent, Info, Pass, "");
    }
    if |r.dns.a| == 0 && |r.dns.aaaa| == 0 {
      findings.Add(DNSAddressMissing, High, Fail, "");
    }
  }

  // ----- Vulnerabilities -----

  predicate IsCBCUnderTLS10(c: TLSCipherSupport) {
    c.version == "TLS 1.0" && c.cbc
  }

  predicate BeastExposed(tls: TLSInfo) {
    VersionSupported(tls, "TLS 1.0") && AnyAccepted(tls.supportedCiphers, IsCBCUnderTLS10)
  }

  function VulnerabilityFindings(tls: TLSInfo): seq<SecurityFinding> {
    ExposureFindings(tls) + UntestedFindings()
  }

  function ExposureFindings(tls: TLSInfo): seq<SecurityFinding> {
    When(BeastExposed(tls), Beast, Medium, Warn, "")
    + When(!BeastExposed(tls) && tls.supportedVersions != [], Beast, Info, Pass, "")
    + When(AnyAccepted(tls.supportedCiphers, IsStaticRSA), Robot, Medium, Warn, "")
    + When(!AnyAccepted(tls.supportedCiphers, IsStaticRSA) && tls.supportedCiphers != [], Robot, Info, Pass, "")
  }

  function UntestedFindings(): seq<SecurityFinding> {
    [SecurityFinding(Poodle, Info, NotTested, ""),
     SecurityFinding(Heartbleed, Info, NotTested, ""),
     SecurityFinding(Ticketbleed, Info, NotTested, "")]
  }

  method SupportedCipherWhere(r: Result, p: TLSCipherSupport -> bool) returns (found: bool)
    ensures found == AnyAccepted(r.tls.supportedCiphers, p)
  {
    var ciphers := r.tls.supportedCiphers;
    for i := 0 to |ciphers|
      invariant !AnyAccepted(ciphers[..i], p)
    {
      NextAccepted(ciphers, i, p);
      if ciphers[i].supported && p(ciphers[i]) {
        return true;
      }
    }
    assert ciphers[..|ciphers|] == ciphers;
    return false;
  }

  method AddExposureFindings(r: Result, findings: FindingList)
    modifies findings
    ensures findings.items == old(findings.items) + ExposureFindings(r.tls)
  {
    hide VersionSupported, AnyAccepted, IsStaticRSA, IsCBCUnderTLS10;
    var tls10 := TLSVersionSupported(r, "TLS 1.0");
    var cbcTLS10 := SupportedCipherWhere(r, IsCBCUnderTLS10);
    var staticRSA := SupportedCipherWhere(r, IsStaticRSA);
    if tls10 && cbcTLS10 {
      findings.Add(Beast, Medium, Warn, "");
    } else if |r.tls.supportedVersions| > 0 {
      findings.Add(Beast, Info, Pass, "");
    }
    if staticRSA {
      findings.Add(Robot, Medium, Warn, "");
    } else if |r.tls.supportedCiphers| > 0 {
      findings.Add(Robot, Info, Pass, "");
    }
  }

  method AddVulnerabilityFindings(r: Result, findings: FindingList)
    modifies findings
    ensures findings.items == old(findings.items) + VulnerabilityFindings(r.tls)
  {
    hide ExposureFindings;
    AddExposureFindings(r, findings);
    findings.Add(Poodle, Info, NotTested, "");
    findings.Add(Heartbleed, Info, NotTested, "");
    findings.Add(Ticketbleed, Info, NotTested, "");
  }

  // ----- The whole analysis -----

  /** What does not depend on the probes of versions and suites, before and after them. */
  function FindingsBefore(e: Evidence): seq<SecurityFinding> {
    ConnectionFindings(e) + TrustFindings(e.verification) + LeafFindings(e.certificates, e.tls.sctCount)
    + ChainFindings(e.warnings)
  }

  function FindingsBetween(e: Evidence): seq<SecurityFinding> {
    HeaderFindings(e.http.securityHeaders) + DNSFindings(e.dns, e.target.target.isIP)
  }

  function Findings(e: Evidence): seq<SecurityFinding> {
    FindingsBefore(e)
    + (ProtocolFindings(e.tls) + CipherFindings(e.tls.supportedCiphers))
    + FindingsBetween(e)
    + VulnerabilityFindings(e.tls)
  }

  function Analysis(e: Evidence): SecurityInfo {
    var fs := Findings(e);
    SecurityInfo(GradeOf(Score(fs), fs), Score(fs), SummaryOf(Score(fs), fs), fs)
  }

  method AnalyzeSecurity(r: Result?) returns (info: SecurityInfo)
    ensures r == null ==> info == SecurityInfo(Ungraded, 0, NoSummary, [])
    ensures r != null ==> info == Analysis(r.Snapshot())
  {
    hide ConnectionFindings, TrustFindings, LeafFindings, ChainFindings, ProtocolFindings, CipherFindings,
      HeaderFindings, DNSFindings, VulnerabilityFindings, Score, GradeOf, SummaryOf;
    if r == null {
      return NO_SECURITY;
    }
    var findings := new FindingList();
    AddConnectionFindings(r, findings);
    AddTrustFindings(r, findings);
    AddLeafFindings(r, findings);
    AddChainFindings(r, findings);
    AddProtocolFindings(r, findings);
    AddCipherFindings(r, findings);
    AddHTTPHeaderFindings(r, findings);
    AddDNSFindings(r, findings);
    AddVulnerabilityFindings(r, findings);
    assert findings.items == Findings(r.Snapshot());
    var score := ScoreFindings(findings.items);
    var grade := GradeScore(score, findings.items);
    var summary := SummaryForScore(score, findings.items);
    return SecurityInfo(grade, score, summary, findings.items);
  }
}
