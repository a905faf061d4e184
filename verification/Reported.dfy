/** What a report says, in terms of the evidence alone: each finding exactly
    when the evidence calls for it, and the score from what it is charged for. */
module Reported {
  import opened Bytes
  import opened Report
  import opened Text
  import opened Grading
  import opened Ciphers
  import opened Security
  import opened GradeMeaning
  import Chain

  // ----- Which findings there are -----

  /** A finding without evidence in its description. */
  function Said(id: FindingID, severity: Severity, status: Status): SecurityFinding {
    SecurityFinding(id, severity, status, "")
  }

  lemma ConnectionReported(e: Evidence, f: SecurityFinding)
    requires SubjectOf(f.id) == OfConnection
    ensures f in Findings(e) <==>
      || (f == Said(PlainHTTP, High, Fail) && e.protocol == "HTTP" && e.http.plaintext)
      || (f == SecurityFinding(TLSHandshake, Critical, Fail, if e.tls.error == "" then "-" else e.tls.error)
          && e.tls.attempted && !e.tls.connected)
      || (f == Said(TLSCompression, High, Fail) && e.tls.connected && e.tls.compression)
      || (f == Said(TLSCompression, Info, Pass) && e.tls.connected && !e.tls.compression)
  {
    FindingsByPart(e, f);
    hide Findings;
  }

  lemma TrustReported(e: Evidence, f: SecurityFinding)
    requires SubjectOf(f.id) == OfTrust
    ensures f in Findings(e) <==> e.verification.checked && VerdictCallsFor(e.verification, f)
  {
    hide Findings, TrustFindings, VerdictCallsFor, SubjectOf;
    FindingsByPart(e, f);
    TrustMembers(e.verification, f);
  }

  lemma TrustMembers(v: VerificationInfo, f: SecurityFinding)
    ensures f in TrustFindings(v) <==> v.checked && VerdictCallsFor(v, f)
  {
    hide Join;
  }

  /** What a verification is reported for. */
  predicate VerdictCallsFor(v: VerificationInfo, f: SecurityFinding) {
    || (f == Said(CertificateTrust, Info, Pass) && v.verified)
    || (f == SecurityFinding(CertificateTrust, Critical, Fail, Join(v.errors, "; ")) && !v.verified)
    || (f == Said(CertificateExpired, Critical, Fail) && v.expired)
    || (f == Said(CertificateNotYetValid, High, Fail) && v.notYetValid)
    || (f == Said(SelfSignedLeaf, High, Fail) && v.selfSignedLeaf)
    || (f == Said(HostnameMismatch, Critical, Fail) && v.hostnameChecked && !v.hostnameVerified)
  }

  lemma LeafReported(e: Evidence, f: SecurityFinding)
    requires SubjectOf(f.id) == OfLeaf
    ensures f in Findings(e) <==> e.certificates != [] && LeafCallsFor(e.certificates[0], e.tls.sctCount, f)
  {
    FindingsByPart(e, f);
    hide Findings, Contains, ToUpper;
  }

  /** What the first certificate is reported for. */
  predicate LeafCallsFor(leaf: CertificateInfo, sctCount: nat, f: SecurityFinding) {
    var signature := ToUpper(leaf.signatureAlgorithm);
    || (f == Said(ExpiresSoon, High, Warn) && 0 <= leaf.daysRemaining <= 14)
    || (f == Said(ExpiresSoon, Medium, Warn) && 15 <= leaf.daysRemaining <= 30)
    || (f == Said(WeakSignature, High, Fail) && (Contains(signature, "SHA1") || Contains(signature, "MD5")))
    || (f == Said(WeakKey, High, Fail) && leaf.publicKeyAlgorithm == "RSA" && 1 <= leaf.publicKeySize <= 2047)
    || (f == Said(RevocationInfo, Medium, Warn) && leaf.ocspServers == [] && leaf.crlDistributionPoints == [])
    || (f == Said(CertificateTransparency, Medium, Warn) && leaf.embeddedSCTCount == 0 && sctCount == 0)
  }

  /** Some entry says that `version` is supported. */
  predicate Speaks(tls: TLSInfo, version: string) {
    exists v | v in tls.supportedVersions :: v.supported && v.version == version
  }

  lemma ProtocolReported(e: Evidence, f: SecurityFinding)
    requires SubjectOf(f.id) == OfProtocols
    ensures var probed := e.tls.supportedVersions != [];
            f in Findings(e) <==>
              || (f == Said(TLS10, High, Fail) && Speaks(e.tls, "TLS 1.0"))
              || (f == Said(TLS11, Medium, Fail) && Speaks(e.tls, "TLS 1.1"))
              || (f == Said(ModernTLSMissing, Critical, Fail) && probed
                  && !Speaks(e.tls, "TLS 1.2") && !Speaks(e.tls, "TLS 1.3"))
              || (f == Said(TLS13, Info, Pass) && Speaks(e.tls, "TLS 1.3"))
              || (f == Said(TLS13, Info, Note) && probed && !Speaks(e.tls, "TLS 1.3"))
  {
    FindingsByPart(e, f);
    SpeaksIsSupported(e.tls, "TLS 1.0");
    SpeaksIsSupported(e.tls, "TLS 1.1");
    SpeaksIsSupported(e.tls, "TLS 1.2");
    SpeaksIsSupported(e.tls, "TLS 1.3");
    hide Findings, Speaks, VersionSupported;
  }

  lemma SpeaksIsSupported(tls: TLSInfo, version: string)
    ensures Speaks(tls, version) == VersionSupported(tls, version)
  {
  }

  lemma CiphersReported(e: Evidence, f: SecurityFinding)
    requires SubjectOf(f.id) == OfCiphers
    ensures var ciphers := e.tls.supportedCiphers;
            var weak := exists c | c in ciphers :: c.supported && (c.insecure || c.rc4 || c.tripleDES);
            var legacy := exists c | c in ciphers :: c.supported && (c.strength == Legacy || c.cbc);
            var lacking := exists c | c in ciphers :: c.supported && !c.forwardSecrecy;
            f in Findings(e) <==>
              || (f == Said(CipherScan, Info, NotTested) && ciphers == [])
              || (ciphers != [] && (
                    || f == (if weak then Said(WeakCiphers, High, Fail) else Said(WeakCiphers, Info, Pass))
                    || (f == Said(LegacyCiphers, Medium, Warn) && legacy)
                    || f == (if lacking then Said(ForwardSecrecy, Medium, Warn) else Said(ForwardSecrecy, Info, Pass))))
  {
    MarksAreAccepted(e.tls.supportedCiphers);
    hide Findings, AnyAccepted;
    FindingsByPart(e, f);
  }

  /** What the marks that the analysis looks for are. */
  lemma MarksAreAccepted(ciphers: seq<TLSCipherSupport>)
    ensures AnyAccepted(ciphers, IsWeak)
       <==> exists c | c in ciphers :: c.supported && (c.insecure || c.rc4 || c.tripleDES)
    ensures AnyAccepted(ciphers, IsLegacy)
       <==> exists c | c in ciphers :: c.supported && (c.strength == Legacy || c.cbc)
    ensures AnyAccepted(ciphers, LacksForwardSecrecy) <==> exists c | c in ciphers :: c.supported && !c.forwardSecrecy
    ensures AnyAccepted(ciphers, IsCBCUnderTLS10)
       <==> exists c | c in ciphers :: c.supported && c.version == "TLS 1.0" && c.cbc
    ensures AnyAccepted(ciphers, IsStaticRSA) <==> exists c | c in ciphers ::
      c.supported && Contains(c.name, "_RSA_") && !Contains(c.name, "_ECDHE_") && !Contains(c.name, "_DHE_")
  {
    hide Contains;
  }

  lemma BeastReported(e: Evidence, f: SecurityFinding)
    requires f.id == Beast
    ensures var beast := Speaks(e.tls, "TLS 1.0")
                         && exists c | c in e.tls.supportedCiphers :: c.supported && c.version == "TLS 1.0" && c.cbc;
            f in Findings(e) <==>
              || (f == Said(Beast, Medium, Warn) && beast)
              || (f == Said(Beast, Info, Pass) && !beast && e.tls.supportedVersions != [])
  {
    MarksAreAccepted(e.tls.supportedCiphers);
    SpeaksIsSupported(e.tls, "TLS 1.0");
    hide Findings, VulnerabilityFindings, AnyAccepted, VersionSupported, Speaks, Contains;
    FindingsByPart(e, f);
    ExposureMembers(e.tls, f);
  }

  lemma RobotReported(e: Evidence, f: SecurityFinding)
    requires f.id == Robot
    ensures var robot := exists c | c in e.tls.supportedCiphers ::
              c.supported && Contains(c.name, "_RSA_") && !Contains(c.name, "_ECDHE_") && !Contains(c.name, "_DHE_");
            f in Findings(e) <==>
              || (f == Said(Robot, Medium, Warn) && robot)
              || (f == Said(Robot, Info, Pass) && !robot && e.tls.supportedCiphers != [])
  {
    MarksAreAccepted(e.tls.supportedCiphers);
    hide Findings, VulnerabilityFindings, AnyAccepted, Contains;
    FindingsByPart(e, f);
    ExposureMembers(e.tls, f);
  }

  lemma ExposureMembers(tls: TLSInfo, f: SecurityFinding)
    ensures f.id == Robot ==>
      (f in VulnerabilityFindings(tls) <==>
         || (f == Said(Robot, Medium, Warn) && AnyAccepted(tls.supportedCiphers, IsStaticRSA))
         || (f == Said(Robot, Info, Pass) && tls.supportedCiphers != []
             && !AnyAccepted(tls.supportedCiphers, IsStaticRSA)))
    ensures f.id == Beast ==>
      (f in VulnerabilityFindings(tls) <==>
         || (f == Said(Beast, Medium, Warn) && BeastExposed(tls))
         || (f == Said(Beast, Info, Pass) && !BeastExposed(tls) && tls.supportedVersions != []))
    ensures f.id in {Poodle, Heartbleed, Ticketbleed} ==>
      (f in VulnerabilityFindings(tls) <==> f == Said(f.id, Info, NotTested))
  {
    hide AnyAccepted, BeastExposed;
  }

  /** What a scan cannot tell is said to be not tested, always. */
  lemma UntestedReported(e: Evidence, f: SecurityFinding)
    requires f.id in {Poodle, Heartbleed, Ticketbleed}
    ensures f in Findings(e) <==> f == Said(f.id, Info, NotTested)
  {
    hide Findings, VulnerabilityFindings;
    FindingsByPart(e, f);
    ExposureMembers(e.tls, f);
  }

  lemma DNSReported(e: Evidence, f: SecurityFinding)
    requires SubjectOf(f.id) == OfDNS
    ensures f in Findings(e) <==> e.dns.attempted && !e.target.target.isIP && ResolutionCallsFor(e.dns, f)
  {
    hide Findings, DNSFindings, ResolutionCallsFor, SubjectOf;
    FindingsByPart(e, f);
    DNSMembers(e.dns, e.target.target.isIP, f);
  }

  lemma DNSMembers(dns: DNSInfo, isIP: bool, f: SecurityFinding)
    ensures f in DNSFindings(dns, isIP) <==> dns.attempted && !isIP && ResolutionCallsFor(dns, f)
  {
  }

  /** What name resolution is reported for. */
  predicate ResolutionCallsFor(dns: DNSInfo, f: SecurityFinding) {
    || (f == Said(CAAMissing, Info, Note) && dns.caa == [])
    || (f == Said(CAAPresent, Info, Pass) && dns.caa != [])
    || (f == Said(DNSAddressMissing, High, Fail) && dns.a == [] && dns.aaaa == [])
  }

  /** Every header check that is neither passed nor informational is reported:
      a failure as high, a warning as medium, anything else as information. */
  lemma HeadersReported(e: Evidence, f: SecurityFinding)
    requires f.id.HTTPHeader?
    ensures f in Findings(e) <==> exists h | h in e.http.securityHeaders ::
      && h.status != Pass && h.status != Note && f.status == h.status && f.detail == h.description
      && f.id.name == "http_header_" + ToLower(Underscored(h.name))
      && f.severity == (if h.status == Fail then High else if h.status == Warn then Medium else Info)
  {
    FindingsByPart(e, f);
    hide Findings, ToLower, Underscored;
    HeaderMembers(e.http.securityHeaders, f);
  }

  lemma {:induction false} HeaderMembers(checks: seq<HTTPHeaderCheck>, f: SecurityFinding)
    requires f.id.HTTPHeader?
    ensures f in HeaderFindings(checks) <==> exists h | h in checks ::
      && h.status != Pass && h.status != Note && f.status == h.status && f.detail == h.description
      && f.id.name == "http_header_" + ToLower(Underscored(h.name))
      && f.severity == (if h.status == Fail then High else if h.status == Warn then Medium else Info)
  {
    hide ToLower, Underscored;
    if checks != [] {
      HeaderMembers(checks[1..], f);
      assert checks == [checks[0]] + checks[1..];
    }
  }

  // ----- What it costs -----

  function ConnectionLoss(e: Evidence): nat {
    If(e.protocol == "HTTP" && e.http.plaintext, 25)
    + If(e.tls.attempted && !e.tls.connected, 40)
    + If(e.tls.connected && e.tls.compression, 25)
  }

  function TrustLoss(v: VerificationInfo): nat {
    if !v.checked then 0
    else If(!v.verified, 40) + If(v.expired, 40) + If(v.notYetValid, 25) + If(v.selfSignedLeaf, 25)
         + If(v.hostnameChecked && !v.hostnameVerified, 40)
  }

  function LeafLoss(leaf: CertificateInfo, sctCount: nat): nat {
    var signature := ToUpper(leaf.signatureAlgorithm);
    If(0 <= leaf.daysRemaining <= 14, 25) + If(15 <= leaf.daysRemaining <= 30, 10)
    + If(Contains(signature, "SHA1") || Contains(signature, "MD5"), 25) + KeyLoss(leaf)
    + If(leaf.ocspServers == [] && leaf.crlDistributionPoints == [], 10)
    + If(leaf.embeddedSCTCount == 0 && sctCount == 0, 10)
  }

  function KeyLoss(leaf: CertificateInfo): nat {
    If(leaf.publicKeyAlgorithm == "RSA" && 1 <= leaf.publicKeySize <= 2047, 25)
  }

  function ProtocolLoss(tls: TLSInfo): nat {
    If(Speaks(tls, "TLS 1.0"), 25) + If(Speaks(tls, "TLS 1.1"), 10)
    + If(tls.supportedVersions != [] && !Speaks(tls, "TLS 1.2") && !Speaks(tls, "TLS 1.3"), 40)
  }

  function CipherLoss(tls: TLSInfo): nat {
    var cs := tls.supportedCiphers;
    If(exists c | c in cs :: c.supported && (c.insecure || c.rc4 || c.tripleDES), 25)
    + If(exists c | c in cs :: c.supported && (c.strength == Legacy || c.cbc), 10)
    + If(exists c | c in cs :: c.supported && !c.forwardSecrecy, 10)
    + If(Speaks(tls, "TLS 1.0") && exists c | c in cs :: c.supported && c.version == "TLS 1.0" && c.cbc, 10)
    + If(exists c | c in cs ::
           c.supported && Contains(c.name, "_RSA_") && !Contains(c.name, "_ECDHE_") && !Contains(c.name, "_DHE_"), 10)
  }

  /** The number of header checks that came out as `status`. */
  function Outcomes(checks: seq<HTTPHeaderCheck>, status: Status): nat {
    if checks == [] then 0 else (if checks[0].status == status then 1 else 0) + Outcomes(checks[1..], status)
  }

  function DNSLoss(e: Evidence): nat {
    If(e.dns.attempted && !e.target.target.isIP && e.dns.a == [] && e.dns.aaaa == [], 25)
  }

  /** What the evidence is charged for in all. */
  function Loss(e: Evidence): nat {
    ConnectionLoss(e) + TrustLoss(e.verification)
    + (if e.certificates == [] then 0 else LeafLoss(e.certificates[0], e.tls.sctCount))
    + 10 * Chain.Mentions(e.warnings) + ProtocolLoss(e.tls) + CipherLoss(e.tls)
    + 25 * Outcomes(e.http.securityHeaders, Fail) + 10 * Outcomes(e.http.securityHeaders, Warn) + DNSLoss(e)
  }

  /** The score of any report, from its evidence. */
  lemma ScoreOfEvidence(e: Evidence)
    ensures Penalty(Findings(e)) == Loss(e)
    ensures Analysis(e).score == if Loss(e) <= 100 then 100 - Loss(e) else 0
  {
    FindingsPenalty(e);
    BeforePenalty(e);
    BetweenPenalty(e);
    ProbesPenalty(e.tls);
    hide Findings, FindingsBefore, FindingsBetween, ProtocolFindings, CipherFindings, VulnerabilityFindings, Penalty,
      ConnectionLoss, TrustLoss, LeafLoss, ProtocolLoss, CipherLoss, Outcomes, DNSLoss, SummaryOf, GradeOf;
  }

  lemma BeforePenalty(e: Evidence)
    ensures Penalty(FindingsBefore(e))
         == ConnectionLoss(e) + TrustLoss(e.verification)
            + (if e.certificates == [] then 0 else LeafLoss(e.certificates[0], e.tls.sctCount))
            + 10 * Chain.Mentions(e.warnings)
  {
    ConnectionPenalty(e);
    TrustPenalty(e.verification);
    LeafPenalty(e.certificates, e.tls.sctCount);
    CountOfChain(e.warnings);
    PenaltyRules();
    hide ConnectionFindings, TrustFindings, LeafFindings, ChainFindings, Penalty, ConnectionLoss, TrustLoss, LeafLoss;
  }

  lemma ConnectionPenalty(e: Evidence)
    ensures Penalty(ConnectionFindings(e)) == ConnectionLoss(e)
  {
    PenaltyRules();
    hide Penalty, When;
  }

  lemma TrustPenalty(v: VerificationInfo)
    ensures Penalty(TrustFindings(v)) == TrustLoss(v)
  {
    VerdictPenalty(v);
    PenaltyRules();
    assert Penalty([]) == 0;
    hide Penalty, VerdictFindings, LeafStateFindings;
  }

  lemma VerdictPenalty(v: VerificationInfo)
    ensures Penalty(VerdictFindings(v)) == If(!v.verified, 40) + If(v.expired, 40)
    ensures Penalty(LeafStateFindings(v))
         == If(v.notYetValid, 25) + If(v.selfSignedLeaf, 25) + If(v.hostnameChecked && !v.hostnameVerified, 40)
  {
    PenaltyRules();
    hide Penalty, When, Join;
  }

  lemma LeafPenalty(certificates: seq<CertificateInfo>, sctCount: nat)
    ensures Penalty(LeafFindings(certificates, sctCount))
         == if certificates == [] then 0 else LeafLoss(certificates[0], sctCount)
  {
    PenaltyRules();
    assert Penalty([]) == 0;
    hide Penalty, When, Contains, ToUpper;
    if certificates != [] {
      var leaf := certificates[0];
      StrengthPenalty(leaf);
      hide StrengthFindings;
    }
  }

  lemma StrengthPenalty(leaf: CertificateInfo)
    ensures var signature := ToUpper(leaf.signatureAlgorithm);
            Penalty(StrengthFindings(leaf))
            == If(0 <= leaf.daysRemaining <= 14, 25) + If(15 <= leaf.daysRemaining <= 30, 10)
               + If(Contains(signature, "SHA1") || Contains(signature, "MD5"), 25) + KeyLoss(leaf)
  {
    PenaltyRules();
    hide Penalty, When, Contains, ToUpper;
  }

  lemma ProbesPenalty(tls: TLSInfo)
    ensures Penalty(ProtocolFindings(tls)) == ProtocolLoss(tls)
    ensures Penalty(CipherFindings(tls.supportedCiphers)) + Penalty(VulnerabilityFindings(tls)) == CipherLoss(tls)
  {
    SpeaksIsSupported(tls, "TLS 1.0");
    SpeaksIsSupported(tls, "TLS 1.1");
    SpeaksIsSupported(tls, "TLS 1.2");
    SpeaksIsSupported(tls, "TLS 1.3");
    MarksAreAccepted(tls.supportedCiphers);
    hide Speaks, VersionSupported, AnyAccepted, Contains, Penalty, ProtocolFindings, CipherFindings,
      VulnerabilityFindings;
    ProtocolPenalty(tls);
    CipherPenalty(tls.supportedCiphers);
    VulnerabilityPenalty(tls);
  }

  lemma BetweenPenalty(e: Evidence)
    ensures Penalty(FindingsBetween(e))
         == 25 * Outcomes(e.http.securityHeaders, Fail) + 10 * Outcomes(e.http.securityHeaders, Warn) + DNSLoss(e)
  {
    HeaderPenalty(e.http.securityHeaders);
    PenaltyRules();
    assert Penalty([]) == 0;
    hide Penalty, When, HeaderFindings, Outcomes;
  }

  lemma {:induction false} HeaderPenalty(checks: seq<HTTPHeaderCheck>)
    ensures Penalty(HeaderFindings(checks)) == 25 * Outcomes(checks, Fail) + 10 * Outcomes(checks, Warn)
  {
    PenaltyRules();
    assert Penalty([]) == 0;
    hide Penalty, When, HeaderID;
    if checks != [] { HeaderPenalty(checks[1..]); }
  }

  // ----- Two reports -----

  /** A report charged for no more scores no less. */
  lemma LessLossScoresMore(e: Evidence, e': Evidence)
    requires Loss(e) <= Loss(e')
    ensures Analysis(e').score <= Analysis(e).score
  {
    ScoreOfEvidence(e);
    ScoreOfEvidence(e');
    hide Analysis, Loss;
  }

  /** The evidence with another first certificate. */
  function WithLeaf(e: Evidence, leaf: CertificateInfo): Evidence
    requires e.certificates != []
  {
    e.(certificates := [leaf] + e.certificates[1..])
  }

  /** Two reports that differ in the first certificate differ in what it is charged for. */
  lemma LeafDecides(e: Evidence, leaf: CertificateInfo)
    requires e.certificates != []
    ensures Loss(WithLeaf(e, leaf)) + LeafLoss(e.certificates[0], e.tls.sctCount)
         == Loss(e) + LeafLoss(leaf, e.tls.sctCount)
  {
    hide TrustLoss, LeafLoss, ProtocolLoss, CipherLoss, Outcomes, Chain.Mentions;
  }

  /** With a longer RSA key and all else equal a report scores no less, and the
      same unless the keys lie on either side of 2048 bits. */
  lemma LongerKeyNeverHurts(e: Evidence, size: int, size': int)
    requires e.certificates != [] && e.certificates[0].publicKeyAlgorithm == "RSA" && 0 < size <= size'
    ensures var leaf := e.certificates[0];
            var short, long := WithLeaf(e, leaf.(publicKeySize := size)), WithLeaf(e, leaf.(publicKeySize := size'));
            && Analysis(short).score <= Analysis(long).score
            && (Said(WeakKey, High, Fail) in Findings(short) <==> size < 2048)
            && (size >= 2048 || size' < 2048 ==> Analysis(short).score == Analysis(long).score)
            && (size < 2048 <= size' && Analysis(short).score > 0 ==>
                  Analysis(long).score == Analysis(short).score + 25)
  {
    var leaf := e.certificates[0];
    var short, long := leaf.(publicKeySize := size), leaf.(publicKeySize := size');
    LeafDecides(e, short);
    LeafDecides(e, long);
    KeyLosses(leaf, size, size', e.tls.sctCount);
    hide Analysis, Loss, LeafLoss, Findings;
    LeafReported(WithLeaf(e, short), Said(WeakKey, High, Fail));
    assert WithLeaf(e, short).certificates[0] == short;
    ScoreOfEvidence(WithLeaf(e, short));
    ScoreOfEvidence(WithLeaf(e, long));
  }

  lemma KeyLosses(leaf: CertificateInfo, size: int, size': int, sctCount: nat)
    requires leaf.publicKeyAlgorithm == "RSA" && size > 0 && size' > 0
    ensures var short, long := leaf.(publicKeySize := size), leaf.(publicKeySize := size');
            LeafLoss(short, sctCount) + If(size' < 2048, 25) == LeafLoss(long, sctCount) + If(size < 2048, 25)
  {
    hide Contains, ToUpper;
  }

  /** With more days left and all else equal a report scores no less, as long as the certificate has not run out. */
  lemma MoreDaysNeverHurt(e: Evidence, days: int, days': int)
    requires e.certificates != [] && 0 <= days <= days'
    ensures var leaf := e.certificates[0];
            var sooner, later := WithLeaf(e, leaf.(daysRemaining := days)), WithLeaf(e, leaf.(daysRemaining := days'));
            && Analysis(sooner).score <= Analysis(later).score
            && ((days <= 14 <==> days' <= 14) && (days <= 30 <==> days' <= 30) ==>
                  Analysis(sooner).score == Analysis(later).score)
  {
    var leaf := e.certificates[0];
    var sooner, later := leaf.(daysRemaining := days), leaf.(daysRemaining := days');
    LeafDecides(e, sooner);
    LeafDecides(e, later);
    DaysLoss(leaf, days, days', e.tls.sctCount);
    hide Analysis, Loss, LeafLoss, Findings;
    ScoreOfEvidence(WithLeaf(e, sooner));
    ScoreOfEvidence(WithLeaf(e, later));
  }

  lemma DaysLoss(leaf: CertificateInfo, days: int, days': int, sctCount: nat)
    requires 0 <= days <= days'
    ensures var sooner, later := leaf.(daysRemaining := days), leaf.(daysRemaining := days');
            && LeafLoss(later, sctCount) <= LeafLoss(sooner, sctCount)
            && ((days <= 14 <==> days' <= 14) && (days <= 30 <==> days' <= 30) ==>
                  LeafLoss(sooner, sctCount) == LeafLoss(later, sctCount))
  {
    hide Contains, ToUpper, KeyLoss;
    KeyOfLeaf(leaf, days, days');
  }

  lemma KeyOfLeaf(leaf: CertificateInfo, days: int, days': int)
    ensures KeyLoss(leaf.(daysRemaining := days)) == KeyLoss(leaf.(daysRemaining := days'))
  {
  }

  /** Every flag of a verification at least as bad. */
  predicate NoBetterVerdict(v: VerificationInfo, v': VerificationInfo) {
    && v'.checked == v.checked
    && (v'.verified ==> v.verified) && (v.expired ==> v'.expired) && (v.notYetValid ==> v'.notYetValid)
    && (v.selfSignedLeaf ==> v'.selfSignedLeaf)
    && (v.hostnameChecked && !v.hostnameVerified ==> v'.hostnameChecked && !v'.hostnameVerified)
  }

  predicate WeakHash(name: string) {
    Contains(ToUpper(name), "SHA1") || Contains(ToUpper(name), "MD5")
  }

  /** A certificate at least as bad, with no more days left. */
  predicate NoBetterLeaf(leaf: CertificateInfo, leaf': CertificateInfo) {
    && 0 <= leaf'.daysRemaining <= leaf.daysRemaining
    && (WeakHash(leaf.signatureAlgorithm) ==> WeakHash(leaf'.signatureAlgorithm))
    && (leaf.publicKeyAlgorithm == "RSA" && leaf.publicKeySize > 0 ==>
          leaf'.publicKeyAlgorithm == "RSA" && 0 < leaf'.publicKeySize <= leaf.publicKeySize)
    && (leaf.ocspServers == [] && leaf.crlDistributionPoints == [] ==>
          leaf'.ocspServers == [] && leaf'.crlDistributionPoints == [])
    && (leaf.embeddedSCTCount == 0 ==> leaf'.embeddedSCTCount == 0)
  }

  /** A worse verdict and a worse certificate never make a report score more. */
  lemma WorseCertificateNeverHelps(e: Evidence, v: VerificationInfo, leaf: CertificateInfo)
    requires e.certificates != [] && NoBetterLeaf(e.certificates[0], leaf) && NoBetterVerdict(e.verification, v)
    ensures Analysis(WithLeaf(e, leaf).(verification := v)).score <= Analysis(e).score
  {
    LeafDecides(e, leaf);
    var e' := WithLeaf(e, leaf);
    WorseLeafLoss(e.certificates[0], leaf, e.tls.sctCount);
    assert Loss(e'.(verification := v)) == Loss(e') - TrustLoss(e.verification) + TrustLoss(v) by {
      VerdictDecides(e', v);
      assert e'.verification == e.verification;
      hide Loss, TrustLoss;
    }
    assert TrustLoss(e.verification) <= TrustLoss(v);
    hide Analysis, Loss, TrustLoss, LeafLoss, NoBetterLeaf, NoBetterVerdict, WithLeaf;
    LessLossScoresMore(e, e'.(verification := v));
  }

  lemma VerdictDecides(e: Evidence, v: VerificationInfo)
    ensures Loss(e.(verification := v)) + TrustLoss(e.verification) == Loss(e) + TrustLoss(v)
  {
    hide TrustLoss, LeafLoss, ProtocolLoss, CipherLoss, Outcomes, Chain.Mentions;
  }

  lemma WorseLeafLoss(leaf: CertificateInfo, leaf': CertificateInfo, sctCount: nat)
    requires NoBetterLeaf(leaf, leaf')
    ensures LeafLoss(leaf, sctCount) <= LeafLoss(leaf', sctCount)
  {
    hide Contains, ToUpper;
  }
}
