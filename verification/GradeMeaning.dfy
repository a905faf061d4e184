/** What a report's score and grade say about the evidence behind them. */
module GradeMeaning {
  import opened Bytes
  import opened Report
  import opened Text
  import opened Grading
  import opened Ciphers
  import opened Security
  import Chain

  // ----- Parts -----

  /** What a finding is about. */
  datatype Subject =
    | OfConnection | OfTrust | OfLeaf | OfChain | OfProtocols | OfCiphers | OfHeaders | OfDNS | OfVulnerabilities

  function SubjectOf(id: FindingID): Subject {
    match id
    case PlainHTTP | TLSHandshake | TLSCompression => OfConnection
    case CertificateTrust | CertificateExpired | CertificateNotYetValid | SelfSignedLeaf | HostnameMismatch => OfTrust
    case ExpiresSoon | WeakSignature | WeakKey | RevocationInfo | CertificateTransparency => OfLeaf
    case ChainInstallation => OfChain
    case TLS10 | TLS11 | ModernTLSMissing | TLS13 => OfProtocols
    case CipherScan | WeakCiphers | LegacyCiphers | ForwardSecrecy => OfCiphers
    case HTTPHeader(_) => OfHeaders
    case CAAMissing | CAAPresent | DNSAddressMissing => OfDNS
    case Beast | Robot | Poodle | Heartbleed | Ticketbleed => OfVulnerabilities
  }

  function Part(e: Evidence, subject: Subject): seq<SecurityFinding> {
    match subject
    case OfConnection => ConnectionFindings(e)
    case OfTrust => TrustFindings(e.verification)
    case OfLeaf => LeafFindings(e.certificates, e.tls.sctCount)
    case OfChain => ChainFindings(e.warnings)
    case OfProtocols => ProtocolFindings(e.tls)
    case OfCiphers => CipherFindings(e.tls.supportedCiphers)
    case OfHeaders => HeaderFindings(e.http.securityHeaders)
    case OfDNS => DNSFindings(e.dns, e.target.target.isIP)
    case OfVulnerabilities => VulnerabilityFindings(e.tls)
  }

  predicate AllAbout(fs: seq<SecurityFinding>, subject: Subject) {
    forall f | f in fs :: SubjectOf(f.id) == subject
  }

  lemma AboutRules(subject: Subject)
    ensures AllAbout([], subject)
    ensures forall a, b {:trigger AllAbout(a + b, subject)} ::
      AllAbout(a, subject) && AllAbout(b, subject) ==> AllAbout(a + b, subject)
    ensures forall c, id, severity, status, detail {:trigger When(c, id, severity, status, detail)} ::
      AllAbout(When(c, id, severity, status, detail), subject) == (c ==> SubjectOf(id) == subject)
  {
  }

  lemma ConnectionPartApart(e: Evidence)
    ensures AllAbout(ConnectionFindings(e), OfConnection)
  {
  }

  lemma TrustPartApart(v: VerificationInfo)
    ensures AllAbout(TrustFindings(v), OfTrust)
  {
    AboutRules(OfTrust);
    hide AllAbout, When, Join;
  }

  lemma LeafPartApart(certificates: seq<CertificateInfo>, sctCount: nat)
    ensures AllAbout(LeafFindings(certificates, sctCount), OfLeaf)
  {
    AboutRules(OfLeaf);
    hide AllAbout, When, WeakSignatureName;
  }

  lemma DNSPartApart(dns: DNSInfo, isIP: bool)
    ensures AllAbout(DNSFindings(dns, isIP), OfDNS)
  {
    AboutRules(OfDNS);
    hide AllAbout, When;
  }

  lemma ProtocolPartApart(tls: TLSInfo)
    ensures AllAbout(ProtocolFindings(tls), OfProtocols)
  {
    AboutRules(OfProtocols);
    hide AllAbout, When, VersionSupported;
  }

  lemma CipherPartApart(ciphers: seq<TLSCipherSupport>)
    ensures AllAbout(CipherFindings(ciphers), OfCiphers)
  {
    AboutRules(OfCiphers);
    hide AllAbout, When, AnyAccepted;
  }

  lemma UntestedPartApart()
    ensures AllAbout(UntestedFindings(), OfVulnerabilities)
  {
  }

  lemma VulnerabilityPartApart(tls: TLSInfo)
    ensures AllAbout(VulnerabilityFindings(tls), OfVulnerabilities)
  {
    AboutRules(OfVulnerabilities);
    UntestedPartApart();
    hide AllAbout, When, UntestedFindings, AnyAccepted, BeastExposed;
  }

  lemma {:induction false} HeaderPartApart(checks: seq<HTTPHeaderCheck>)
    ensures AllAbout(HeaderFindings(checks), OfHeaders)
  {
    AboutRules(OfHeaders);
    hide AllAbout, When;
    if checks != [] { HeaderPartApart(checks[1..]); }
  }

  lemma {:induction false} ChainPartApart(warnings: seq<string>)
    ensures AllAbout(ChainFindings(warnings), OfChain)
  {
    AboutRules(OfChain);
    hide AllAbout, When, Chain.MentionsChain;
    if warnings != [] { ChainPartApart(warnings[1..]); }
  }

  /** A finding is in the report exactly when it is in the part on its subject. */
  lemma FindingsByPart(e: Evidence, f: SecurityFinding)
    ensures f in Findings(e) <==> f in Part(e, SubjectOf(f.id))
  {
    ConnectionPartApart(e);
    TrustPartApart(e.verification);
    LeafPartApart(e.certificates, e.tls.sctCount);
    ProtocolPartApart(e.tls);
    CipherPartApart(e.tls.supportedCiphers);
    DNSPartApart(e.dns, e.target.target.isIP);
    VulnerabilityPartApart(e.tls);
    HeaderPartApart(e.http.securityHeaders);
    ChainPartApart(e.warnings);
    hide ConnectionFindings, TrustFindings, LeafFindings, ChainFindings, ProtocolFindings, CipherFindings,
      HeaderFindings, DNSFindings, VulnerabilityFindings, SubjectOf;
  }

  // ----- Penalties of the parts -----

  function If(c: bool, n: nat): nat {
    if c then n else 0
  }

  /** The two rules by which penalties of composed findings are computed. */
  lemma PenaltyRules()
    ensures forall a, b {:trigger Penalty(a + b)} :: Penalty(a + b) == Penalty(a) + Penalty(b)
    ensures forall c, id, severity, status, detail {:trigger When(c, id, severity, status, detail)} ::
      Penalty(When(c, id, severity, status, detail)) == If(c, Cost(SecurityFinding(id, severity, status, detail)))
  {
    forall a, b
      ensures Penalty(a + b) == Penalty(a) + Penalty(b)
    {
      PenaltyConcat(a, b);
    }
    forall c, id, severity, status, detail
      ensures Penalty(When(c, id, severity, status, detail))
           == If(c, Cost(SecurityFinding(id, severity, status, detail)))
    {
      assert c ==> When(c, id, severity, status, detail)[1..] == [];
    }
  }

  predicate ModernMissing(tls: TLSInfo) {
    !VersionSupported(tls, "TLS 1.2") && !VersionSupported(tls, "TLS 1.3") && tls.supportedVersions != []
  }

  lemma ProtocolPenalty(tls: TLSInfo)
    ensures Penalty(ProtocolFindings(tls))
         == If(VersionSupported(tls, "TLS 1.0"), 25) + If(VersionSupported(tls, "TLS 1.1"), 10)
          + If(ModernMissing(tls), 40)
  {
    PenaltyRules();
    hide VersionSupported, Penalty, When;
  }

  lemma CipherPenalty(ciphers: seq<TLSCipherSupport>)
    ensures Penalty(CipherFindings(ciphers))
         == If(AnyAccepted(ciphers, IsWeak), 25) + If(AnyAccepted(ciphers, IsLegacy), 10)
          + If(AnyAccepted(ciphers, LacksForwardSecrecy), 10)
  {
    PenaltyRules();
    hide Penalty, When;
  }

  lemma UntestedAreNeutral()
    ensures Penalty(UntestedFindings()) == 0 && AllOrdinary(UntestedFindings())
  {
  }

  lemma VulnerabilityPenalty(tls: TLSInfo)
    ensures Penalty(VulnerabilityFindings(tls))
         == If(BeastExposed(tls), 10) + If(AnyAccepted(tls.supportedCiphers, IsStaticRSA), 10)
  {
    PenaltyRules();
    UntestedAreNeutral();
    hide UntestedFindings, Penalty, When, BeastExposed, AnyAccepted;
  }

  lemma FindingsPenalty(e: Evidence)
    ensures Penalty(Findings(e))
         == Penalty(FindingsBefore(e)) + Penalty(FindingsBetween(e)) + Penalty(ProtocolFindings(e.tls))
          + Penalty(CipherFindings(e.tls.supportedCiphers)) + Penalty(VulnerabilityFindings(e.tls))
  {
    PenaltyRules();
    hide Penalty, FindingsBefore, FindingsBetween, ProtocolFindings, CipherFindings, VulnerabilityFindings;
  }

  // ----- Every worry is at least medium -----

  /** A finding no failure or warning of which is cheap, and that is not about the chain. */
  predicate Ordinary(f: SecurityFinding) {
    (Counts(f) ==> f.severity != Info && f.severity != Low) && f.id != ChainInstallation
  }

  predicate AllOrdinary(fs: seq<SecurityFinding>) {
    forall f | f in fs :: Ordinary(f)
  }

  lemma OrdinaryRules()
    ensures AllOrdinary([])
    ensures forall a, b {:trigger AllOrdinary(a + b)} :: AllOrdinary(a) && AllOrdinary(b) ==> AllOrdinary(a + b)
    ensures forall c, id, severity, status, detail {:trigger When(c, id, severity, status, detail)} ::
      AllOrdinary(When(c, id, severity, status, detail))
      == (c ==> Ordinary(SecurityFinding(id, severity, status, detail)))
  {
  }

  lemma {:induction false} HeaderFindingsOrdinary(checks: seq<HTTPHeaderCheck>)
    ensures AllOrdinary(HeaderFindings(checks))
  {
    OrdinaryRules();
    hide AllOrdinary, When;
    if checks != [] { HeaderFindingsOrdinary(checks[1..]); }
  }

  /** The findings, apart from those about the chain. */
  function Others(e: Evidence): seq<SecurityFinding> {
    (ConnectionFindings(e) + TrustFindings(e.verification) + LeafFindings(e.certificates, e.tls.sctCount))
    + (ProtocolFindings(e.tls) + CipherFindings(e.tls.supportedCiphers))
    + FindingsBetween(e) + VulnerabilityFindings(e.tls)
  }

  lemma OthersOrdinary(e: Evidence)
    ensures AllOrdinary(Others(e))
  {
    HeaderFindingsOrdinary(e.http.securityHeaders);
    EvidenceFindingsOrdinary(e);
    ProbeFindingsOrdinary(e.tls);
    OrdinaryRules();
    hide AllOrdinary, ConnectionFindings, TrustFindings, LeafFindings, ProtocolFindings, CipherFindings, HeaderFindings,
      DNSFindings, VulnerabilityFindings, Ordinary;
  }

  lemma EvidenceFindingsOrdinary(e: Evidence)
    ensures AllOrdinary(ConnectionFindings(e))
    ensures AllOrdinary(TrustFindings(e.verification))
    ensures AllOrdinary(LeafFindings(e.certificates, e.tls.sctCount))
    ensures AllOrdinary(DNSFindings(e.dns, e.target.target.isIP))
  {
    OrdinaryRules();
    hide AllOrdinary, When, WeakSignatureName, Join;
  }

  lemma ProbeFindingsOrdinary(tls: TLSInfo)
    ensures AllOrdinary(ProtocolFindings(tls))
    ensures AllOrdinary(CipherFindings(tls.supportedCiphers))
    ensures AllOrdinary(VulnerabilityFindings(tls))
  {
    ProtocolFindingsOrdinary(tls);
    VulnerabilityFindingsOrdinary(tls);
    OrdinaryRules();
    hide AllOrdinary, When, ProtocolFindings, VulnerabilityFindings, AnyAccepted;
  }

  lemma ProtocolFindingsOrdinary(tls: TLSInfo)
    ensures AllOrdinary(ProtocolFindings(tls))
  {
    OrdinaryRules();
    hide AllOrdinary, When, VersionSupported;
  }

  lemma VulnerabilityFindingsOrdinary(tls: TLSInfo)
    ensures AllOrdinary(VulnerabilityFindings(tls))
  {
    OrdinaryRules();
    UntestedAreNeutral();
    hide AllOrdinary, When, UntestedFindings, AnyAccepted, BeastExposed;
  }

  lemma {:induction false} ChainFindingsAreMedium(warnings: seq<string>)
    ensures forall f | f in ChainFindings(warnings) ::
      f.id == ChainInstallation && f.severity == Medium && f.status == Warn
    ensures |ChainFindings(warnings)| == Chain.Mentions(warnings)
  {
    hide Chain.MentionsChain;
    if warnings != [] { ChainFindingsAreMedium(warnings[1..]); }
  }

  lemma FindingsSplit(e: Evidence, f: SecurityFinding)
    ensures f in Findings(e) <==> f in Others(e) || f in ChainFindings(e.warnings)
  {
  }

  /** No near-perfect gap: a report is graded A+ exactly when it has no failure
      and no warning, which is when it scores 100; and A exactly when it has one, a medium one. */
  lemma NoNearPerfectGap(e: Evidence)
    ensures var info := Analysis(e);
            && NoCheapWorry(info.findings)
            && (info.localGrade == APlus <==> forall f | f in info.findings :: !Counts(f))
            && (info.localGrade == APlus <==> info.score == 100)
            && (info.localGrade == A <==> Worries(info.findings) == 1 && Tally(info.findings, Medium) == 1)
  {
    forall f | f in Findings(e) && Counts(f)
      ensures f.severity != Info && f.severity != Low
    {
      FindingsSplit(e, f);
      OthersOrdinary(e);
      ChainFindingsAreMedium(e.warnings);
    }
    TopGrades(Findings(e));
  }

  // ----- Two runs -----

  /** The same suite, probed with at least as much success. */
  predicate AcceptedMore(c: TLSCipherSupport, c': TLSCipherSupport) {
    c' == c.(supported := c'.supported, error := c'.error) && (c.supported ==> c'.supported)
  }

  /** The same version, probed with at least as much success, and the same success unless it is obsolete. */
  predicate SupportedMore(v: TLSVersionSupport, v': TLSVersionSupport) {
    && v'.version == v.version
    && (v.supported ==> v'.supported)
    && (v.version != "TLS 1.0" && v.version != "TLS 1.1" ==> v'.supported == v.supported)
  }

  /** `e'` is `e` but for a server that accepts more suites and more of the obsolete versions. */
  ghost predicate AcceptsMore(e: Evidence, e': Evidence) {
    && e' == e.(tls := e.tls.(supportedVersions := e'.tls.supportedVersions,
                              supportedCiphers := e'.tls.supportedCiphers))
    && |e'.tls.supportedCiphers| == |e.tls.supportedCiphers|
    && (forall i | 0 <= i < |e.tls.supportedCiphers| ::
      AcceptedMore(e.tls.supportedCiphers[i], e'.tls.supportedCiphers[i]))
    && |e'.tls.supportedVersions| == |e.tls.supportedVersions|
    && (forall i | 0 <= i < |e.tls.supportedVersions| ::
      SupportedMore(e.tls.supportedVersions[i], e'.tls.supportedVersions[i]))
  }

  lemma AnyAcceptedGrows(cs: seq<TLSCipherSupport>, cs': seq<TLSCipherSupport>, p: TLSCipherSupport -> bool)
    requires |cs| == |cs'| && forall i | 0 <= i < |cs| :: AcceptedMore(cs[i], cs'[i])
    requires forall c, c' | AcceptedMore(c, c') :: p(c) == p(c')
    ensures AnyAccepted(cs, p) ==> AnyAccepted(cs', p)
  {
  }

  lemma VersionSupportedGrows(tls: TLSInfo, tls': TLSInfo, version: string)
    requires |tls'.supportedVersions| == |tls.supportedVersions|
    requires forall i | 0 <= i < |tls.supportedVersions| ::
      SupportedMore(tls.supportedVersions[i], tls'.supportedVersions[i])
    ensures VersionSupported(tls, version) ==> VersionSupported(tls', version)
    ensures version != "TLS 1.0" && version != "TLS 1.1" ==>
      VersionSupported(tls', version) == VersionSupported(tls, version)
  {
  }

  lemma ExposureGrows(e: Evidence, e': Evidence)
    requires AcceptsMore(e, e')
    ensures var cs, cs' := e.tls.supportedCiphers, e'.tls.supportedCiphers;
            && (AnyAccepted(cs, IsWeak) ==> AnyAccepted(cs', IsWeak))
            && (AnyAccepted(cs, IsLegacy) ==> AnyAccepted(cs', IsLegacy))
            && (AnyAccepted(cs, LacksForwardSecrecy) ==> AnyAccepted(cs', LacksForwardSecrecy))
            && (AnyAccepted(cs, IsStaticRSA) ==> AnyAccepted(cs', IsStaticRSA))
            && (BeastExposed(e.tls) ==> BeastExposed(e'.tls))
  {
    hide AnyAccepted, VersionSupported, Contains;
    var cs, cs' := e.tls.supportedCiphers, e'.tls.supportedCiphers;
    AnyAcceptedGrows(cs, cs', IsWeak);
    AnyAcceptedGrows(cs, cs', IsLegacy);
    AnyAcceptedGrows(cs, cs', LacksForwardSecrecy);
    AnyAcceptedGrows(cs, cs', IsStaticRSA);
    AnyAcceptedGrows(cs, cs', IsCBCUnderTLS10);
    VersionSupportedGrows(e.tls, e'.tls, "TLS 1.0");
  }

  lemma PenaltyGrows(e: Evidence, e': Evidence)
    requires AcceptsMore(e, e')
    ensures Penalty(Findings(e)) <= Penalty(Findings(e'))
  {
    RestUnchanged(e, e');
    hide Findings, FindingsBefore, FindingsBetween, Penalty, AcceptsMore, ProtocolFindings, CipherFindings,
      VulnerabilityFindings;
    FindingsPenalty(e);
    FindingsPenalty(e');
    ProtocolPenaltyGrows(e, e');
    ExposurePenaltyGrows(e, e');
  }

  lemma RestUnchanged(e: Evidence, e': Evidence)
    requires AcceptsMore(e, e')
    ensures FindingsBefore(e') == FindingsBefore(e) && FindingsBetween(e') == FindingsBetween(e)
  {
  }

  lemma ExposurePenaltyGrows(e: Evidence, e': Evidence)
    requires AcceptsMore(e, e')
    ensures Penalty(CipherFindings(e.tls.supportedCiphers)) <= Penalty(CipherFindings(e'.tls.supportedCiphers))
    ensures Penalty(VulnerabilityFindings(e.tls)) <= Penalty(VulnerabilityFindings(e'.tls))
  {
    hide Penalty, AcceptsMore, AnyAccepted, VersionSupported, BeastExposed, CipherFindings, VulnerabilityFindings;
    ExposureGrows(e, e');
    CipherPenalty(e.tls.supportedCiphers);
    CipherPenalty(e'.tls.supportedCiphers);
    VulnerabilityPenalty(e.tls);
    VulnerabilityPenalty(e'.tls);
  }

  lemma ProtocolPenaltyGrows(e: Evidence, e': Evidence)
    requires AcceptsMore(e, e')
    ensures Penalty(ProtocolFindings(e.tls)) <= Penalty(ProtocolFindings(e'.tls))
  {
    VersionSupportedGrows(e.tls, e'.tls, "TLS 1.0");
    VersionSupportedGrows(e.tls, e'.tls, "TLS 1.1");
    VersionSupportedGrows(e.tls, e'.tls, "TLS 1.2");
    VersionSupportedGrows(e.tls, e'.tls, "TLS 1.3");
    ProtocolPenalty(e.tls);
    ProtocolPenalty(e'.tls);
    hide Penalty, VersionSupported, ProtocolFindings;
  }

  /** A server that accepts more never scores higher and never grades better. */
  lemma AcceptingMoreNeverHelps(e: Evidence, e': Evidence)
    requires AcceptsMore(e, e')
    ensures Analysis(e').score <= Analysis(e).score
    ensures Rank(Analysis(e').localGrade) <= Rank(Analysis(e).localGrade)
  {
    PenaltyGrows(e, e');
    CriticalFailuresStay(e, e');
    hide Findings, Penalty, HasCriticalFailure;
    MorePenaltyNoBetter(Findings(e'), Findings(e));
  }

  lemma CriticalFailuresStay(e: Evidence, e': Evidence)
    requires AcceptsMore(e, e')
    ensures HasCriticalFailure(Findings(e)) ==> HasCriticalFailure(Findings(e'))
  {
    if HasCriticalFailure(Findings(e)) {
      var f :| f in Findings(e) && IsCriticalFailure(f);
      assert f in Findings(e') by {
        VersionSupportedGrows(e.tls, e'.tls, "TLS 1.2");
        VersionSupportedGrows(e.tls, e'.tls, "TLS 1.3");
        CriticalOfProbes(e.tls, f);
        CriticalOfProbes(e'.tls, f);
        assert FindingsBefore(e') == FindingsBefore(e) && FindingsBetween(e') == FindingsBetween(e);
        hide ProtocolFindings, CipherFindings, VulnerabilityFindings, FindingsBefore, FindingsBetween, VersionSupported;
      }
    }
  }

  /** The only critical failure that the probes lead to is the missing modern version. */
  lemma CriticalOfProbes(tls: TLSInfo, f: SecurityFinding)
    requires IsCriticalFailure(f)
    ensures var missing := SecurityFinding(ModernTLSMissing, Critical, Fail, "");
            f in ProtocolFindings(tls) <==> ModernMissing(tls) && f == missing
    ensures f !in CipherFindings(tls.supportedCiphers) && f !in VulnerabilityFindings(tls)
  {
    hide VersionSupported, AnyAccepted, BeastExposed;
  }

  // ----- Cipher inventories -----

  /** Over a non-empty classified inventory, the cipher findings are all passes
      exactly when every accepted suite is modern. */
  lemma CleanInventoryIsModern(ciphers: seq<TLSCipherSupport>)
    requires ciphers != [] && forall c | c in ciphers :: IsClassified(c)
    ensures (forall f | f in CipherFindings(ciphers) :: f.status == Pass)
       <==> (forall c | c in ciphers && c.supported :: c.strength == Modern)
  {
    forall c | c in ciphers
      ensures c.strength == Modern <==> !IsWeak(c) && !IsLegacy(c) && !LacksForwardSecrecy(c)
    {
      ModernMeansClean(c);
    }
    CipherStatuses(ciphers);
    hide CipherFindings, IsClassified, IsWeak, IsLegacy, LacksForwardSecrecy;
  }

  lemma CipherStatuses(ciphers: seq<TLSCipherSupport>)
    requires ciphers != []
    ensures (forall f | f in CipherFindings(ciphers) :: f.status == Pass)
       <==> (!AnyAccepted(ciphers, IsWeak) && !AnyAccepted(ciphers, IsLegacy)
             && !AnyAccepted(ciphers, LacksForwardSecrecy))
  {
    hide AnyAccepted;
    var fs := CipherFindings(ciphers);
    assert AnyAccepted(ciphers, IsWeak) ==> SecurityFinding(WeakCiphers, High, Fail, "") in fs;
    assert AnyAccepted(ciphers, IsLegacy) ==> SecurityFinding(LegacyCiphers, Medium, Warn, "") in fs;
    assert AnyAccepted(ciphers, LacksForwardSecrecy) ==> SecurityFinding(ForwardSecrecy, Medium, Warn, "") in fs;
  }

  /** The probe's own inventory, whatever the server does. */
  lemma ProbedInventoryIsCoherent(out: seq<TLSCipherSupport>, suites: seq<CipherSuite>, hs: Handshakes)
    requires IsInventory(out, Pairs(CIPHER_VERSIONS, suites), hs) && out != []
    ensures (forall f | f in CipherFindings(out) :: f.status == Pass)
       <==> (forall c | c in out && c.supported :: c.strength == Modern)
  {
    EntriesAreClassified(out, Pairs(CIPHER_VERSIONS, suites), hs);
    CleanInventoryIsModern(out);
  }

  // ----- Caps -----

  /** A penalty of `n` caps the score and the grade. */
  lemma PenaltyCaps(e: Evidence, n: nat)
    requires Penalty(Findings(e)) >= n
    ensures var cap := if n <= 100 then 100 - n else 0;
            && Analysis(e).score <= cap
            && Rank(Analysis(e).localGrade) <= Rank(Band(cap))
            && Analysis(e).localGrade != Ungraded
  {
    hide Findings, Penalty, SummaryOf;
  }

  /** A BEAST warning comes with TLS 1.0 and a CBC suite, so it caps the score at 55 and the grade at F. */
  lemma BeastCapsGrade(e: Evidence)
    requires SecurityFinding(Beast, Medium, Warn, "") in Findings(e)
    ensures SecurityFinding(TLS10, High, Fail, "") in Findings(e)
    ensures SecurityFinding(LegacyCiphers, Medium, Warn, "") in Findings(e)
    ensures Analysis(e).score <= 55 && Analysis(e).localGrade == F
  {
    BeastFinding(e);
    hide *;
    BeastCompany(e);
    BeastPenalty(e);
    PenaltyCaps(e, 45);
    RankOfFailing(Analysis(e).localGrade);
  }

  lemma RankOfFailing(g: Grade)
    requires Rank(g) <= Rank(Band(55)) && g != Ungraded
    ensures g == F
  {
  }

  lemma BeastCompany(e: Evidence)
    requires BeastExposed(e.tls)
    ensures SecurityFinding(TLS10, High, Fail, "") in Findings(e)
    ensures SecurityFinding(LegacyCiphers, Medium, Warn, "") in Findings(e)
  {
  }

  lemma BeastPenalty(e: Evidence)
    requires BeastExposed(e.tls)
    ensures Penalty(Findings(e)) >= 45
  {
    hide Findings, FindingsBefore, FindingsBetween, ProtocolFindings, CipherFindings, VulnerabilityFindings,
      BeastExposed, AnyAccepted, VersionSupported, Penalty;
    BeastMeansLegacy(e.tls);
    ProtocolPenalty(e.tls);
    CipherPenalty(e.tls.supportedCiphers);
    VulnerabilityPenalty(e.tls);
    FindingsPenalty(e);
  }

  lemma BeastFinding(e: Evidence)
    ensures SecurityFinding(Beast, Medium, Warn, "") in Findings(e) <==> BeastExposed(e.tls)
  {
    hide Findings, VulnerabilityFindings, BeastExposed, AnyAccepted;
    FindingsByPart(e, SecurityFinding(Beast, Medium, Warn, ""));
    ExposureMembership(e.tls);
  }

  lemma RobotFinding(e: Evidence)
    ensures SecurityFinding(Robot, Medium, Warn, "") in Findings(e)
       <==> AnyAccepted(e.tls.supportedCiphers, IsStaticRSA)
  {
    hide Findings, VulnerabilityFindings, BeastExposed, AnyAccepted;
    FindingsByPart(e, SecurityFinding(Robot, Medium, Warn, ""));
    ExposureMembership(e.tls);
  }

  lemma ExposureMembership(tls: TLSInfo)
    ensures SecurityFinding(Beast, Medium, Warn, "") in VulnerabilityFindings(tls) <==> BeastExposed(tls)
    ensures var robot := SecurityFinding(Robot, Medium, Warn, "");
            robot in VulnerabilityFindings(tls) <==> AnyAccepted(tls.supportedCiphers, IsStaticRSA)
  {
  }

  lemma BeastMeansLegacy(tls: TLSInfo)
    requires BeastExposed(tls)
    ensures VersionSupported(tls, "TLS 1.0") && AnyAccepted(tls.supportedCiphers, IsLegacy)
    ensures tls.supportedCiphers != []
  {
  }

  /** A ROBOT warning on a classified inventory without misread names comes with a
      forward secrecy warning, so it caps the score at 80 and the grade at B. */
  lemma RobotCapsGrade(e: Evidence)
    requires forall c | c in e.tls.supportedCiphers :: IsClassified(c) && !Misread(c.name)
    requires SecurityFinding(Robot, Medium, Warn, "") in Findings(e)
    ensures SecurityFinding(ForwardSecrecy, Medium, Warn, "") in Findings(e)
    ensures Analysis(e).score <= 80 && Rank(Analysis(e).localGrade) <= Rank(B)
  {
    RobotFinding(e);
    ForwardSecrecyFinding(e);
    var ciphers := e.tls.supportedCiphers;
    hide Misread, IsClassified, IsStaticRSA;
    var c :| c in ciphers && c.supported && IsStaticRSA(c);
    StaticRSALacksForwardSecrecy(c);
    assert LacksForwardSecrecy(c);
    hide Analysis, Findings, ProtocolFindings, CipherFindings, VulnerabilityFindings, BeastExposed, AnyAccepted;
    CipherPenalty(ciphers);
    VulnerabilityPenalty(e.tls);
    FindingsPenalty(e);
    PenaltyCaps(e, 20);
  }

  lemma ForwardSecrecyFinding(e: Evidence)
    ensures SecurityFinding(ForwardSecrecy, Medium, Warn, "") in Findings(e)
       <==> AnyAccepted(e.tls.supportedCiphers, LacksForwardSecrecy)
  {
    FindingsByPart(e, SecurityFinding(ForwardSecrecy, Medium, Warn, ""));
    hide Findings;
  }

  /** Whatever the server accepts of a list of suites, a ROBOT warning brings the
      forward secrecy warning: exactly when no suite that is probed has a misread name. */
  lemma RobotLinkExactly(suites: seq<CipherSuite>)
    ensures NamesAgree(suites) <==> RobotImpliesForwardSecrecy(suites)
  {
    var pairs := Pairs(CIPHER_VERSIONS, suites);
    if NamesAgree(suites) {
      forall e: Evidence | IsOutcome(e.tls.supportedCiphers, pairs)
        ensures RobotHasCompany(e)
      {
        AgreeingNamesLink(e, suites);
      }
    } else {
      hide Misread, RobotHasCompany, Pairs, IsOutcome, Findings, CIPHER_VERSIONS;
      var v, s :| v in CIPHER_VERSIONS && s in suites && v.value in s.supportedVersions && Misread(s.name);
      var e := MisreadNameBreaksLink(suites, v, s);
    }
  }

  predicate RobotHasCompany(e: Evidence) {
    SecurityFinding(Robot, Medium, Warn, "") in Findings(e) ==>
      SecurityFinding(ForwardSecrecy, Medium, Warn, "") in Findings(e)
  }

  ghost predicate RobotImpliesForwardSecrecy(suites: seq<CipherSuite>) {
    forall e: Evidence | IsOutcome(e.tls.supportedCiphers, Pairs(CIPHER_VERSIONS, suites)) :: RobotHasCompany(e)
  }

  lemma CompanyMeans(e: Evidence)
    ensures var ciphers := e.tls.supportedCiphers;
            RobotHasCompany(e) <==> (AnyAccepted(ciphers, IsStaticRSA) ==> AnyAccepted(ciphers, LacksForwardSecrecy))
  {
    hide Findings, AnyAccepted;
    RobotFinding(e);
    ForwardSecrecyFinding(e);
  }

  lemma AgreeingNamesLink(e: Evidence, suites: seq<CipherSuite>)
    requires NamesAgree(suites) && IsOutcome(e.tls.supportedCiphers, Pairs(CIPHER_VERSIONS, suites))
    ensures RobotHasCompany(e)
  {
    var out, pairs := e.tls.supportedCiphers, Pairs(CIPHER_VERSIONS, suites);
    CompanyMeans(e);
    hide Findings, Misread, Pairs, CIPHER_VERSIONS, ClassifyCipher, RobotHasCompany;
    if AnyAccepted(out, IsStaticRSA) {
      var c :| c in out && c.supported && IsStaticRSA(c);
      var i :| 0 <= i < |out| && out[i] == c;
      PairsAreExact(CIPHER_VERSIONS, suites, pairs[i].0, pairs[i].1);
      ClassifiedName(c, pairs[i]);
      StaticRSALacksForwardSecrecy(c);
      assert LacksForwardSecrecy(c);
    }
  }

  lemma ClassifiedName(c: TLSCipherSupport, p: (Version, CipherSuite))
    requires c == ClassifyCipher(p.0.name, p.1).(supported := c.supported, error := c.error)
    ensures IsClassified(c) && c.name == p.1.name && c.version == p.0.name
  {
  }

  /** A server that accepts nothing but a misread suite. */
  lemma MisreadNameBreaksLink(suites: seq<CipherSuite>, v: Version, s: CipherSuite) returns (e: Evidence)
    requires v in CIPHER_VERSIONS && s in suites && v.value in s.supportedVersions && Misread(s.name)
    ensures IsOutcome(e.tls.supportedCiphers, Pairs(CIPHER_VERSIONS, suites)) && !RobotHasCompany(e)
  {
    var pairs := Pairs(CIPHER_VERSIONS, suites);
    PairsAreExact(CIPHER_VERSIONS, suites, v, s);
    hide Pairs, CIPHER_VERSIONS;
    var k :| 0 <= k < |pairs| && pairs[k] == (v, s);
    var out := seq(|pairs|, i requires 0 <= i < |pairs| =>
      ClassifyCipher(pairs[i].0.name, pairs[i].1).(supported := i == k));
    ClassifiedName(out[k], pairs[k]);
    StaticRSALacksForwardSecrecy(out[k]);
    assert IsStaticRSA(out[k]) && out[k].supported && !LacksForwardSecrecy(out[k]);
    assert IsOutcome(out, pairs) && forall i | 0 <= i < |out| && i != k :: !out[i].supported;
    hide ClassifyCipher, IsOutcome, Misread, IsClassified, IsStaticRSA, LacksForwardSecrecy, RobotHasCompany;
    assert out[k] in out && forall c | c in out && c.supported :: c == out[k];
    var target := Target([], "", [], 0, [], [], false);
    var tls := NO_TLS.(supportedCiphers := out);
    e := Evidence(TargetInfo(target, [], []), "TLS", tls, NO_HTTP, NO_DNS, NO_VERIFICATION, [], []);
    CompanyMeans(e);
  }

  // ----- Chain defects -----

  /** The number of findings with the id `id`. */
  function CountOf(fs: seq<SecurityFinding>, id: FindingID): nat {
    if fs == [] then 0 else (if fs[0].id == id then 1 else 0) + CountOf(fs[1..], id)
  }

  lemma {:induction false} CountConcat(a: seq<SecurityFinding>, b: seq<SecurityFinding>, id: FindingID)
    ensures CountOf(a + b, id) == CountOf(a, id) + CountOf(b, id)
  {
    if a == [] {
      assert a + b == b;
    } else {
      assert (a + b)[1..] == a[1..] + b;
      CountConcat(a[1..], b, id);
    }
  }

  lemma {:induction false} CountOfOrdinary(fs: seq<SecurityFinding>)
    requires AllOrdinary(fs)
    ensures CountOf(fs, ChainInstallation) == 0
  {
    if fs != [] {
      assert fs[0] in fs;
      CountOfOrdinary(fs[1..]);
    }
  }

  lemma {:induction false} CountOfChain(warnings: seq<string>)
    ensures CountOf(ChainFindings(warnings), ChainInstallation) == Chain.Mentions(warnings)
    ensures Penalty(ChainFindings(warnings)) == 10 * Chain.Mentions(warnings)
  {
    hide Chain.MentionsChain;
    PenaltyRules();
    if warnings != [] {
      CountOfChain(warnings[1..]);
      CountConcat(When(Chain.MentionsChain(warnings[0]), ChainInstallation, Medium, Warn, warnings[0]),
                  ChainFindings(warnings[1..]), ChainInstallation);
    }
  }

  /** One chain finding for each warning that mentions the chain, each at least ten points. */
  lemma ChainFindingsFollowWarnings(e: Evidence)
    ensures CountOf(Findings(e), ChainInstallation) == Chain.Mentions(e.warnings)
    ensures var cap := 100 - 10 * Chain.Mentions(e.warnings);
            Analysis(e).score <= if cap > 0 then cap else 0
  {
    var before := ConnectionFindings(e) + TrustFindings(e.verification) + LeafFindings(e.certificates, e.tls.sctCount);
    var after := (ProtocolFindings(e.tls) + CipherFindings(e.tls.supportedCiphers))
                 + FindingsBetween(e) + VulnerabilityFindings(e.tls);
    var chain := ChainFindings(e.warnings);
    OthersOrdinary(e);
    CountOfChain(e.warnings);
    hide ConnectionFindings, TrustFindings, LeafFindings, ChainFindings, ProtocolFindings, CipherFindings,
      FindingsBetween, VulnerabilityFindings, Ordinary, Penalty, CountOf;
    assert Findings(e) == before + chain + after;
    assert Others(e) == before + after;
    assert AllOrdinary(before) && AllOrdinary(after);
    CountOfOrdinary(before);
    CountOfOrdinary(after);
    CountConcat(before + chain, after, ChainInstallation);
    CountConcat(before, chain, ChainInstallation);
    PenaltyConcat(before + chain, after);
    PenaltyConcat(before, chain);
  }

  // ----- Failures that decide the grade -----

  /** A critical failure among the findings makes the grade F. */
  lemma CriticalMeansF(e: Evidence, f: SecurityFinding)
    requires f in Findings(e) && IsCriticalFailure(f)
    ensures Analysis(e).localGrade == F
  {
  }

  /** A handshake that failed, or a presented chain that did not verify, is graded F. */
  lemma InvalidMeansF(e: Evidence)
    requires (e.tls.attempted && !e.tls.connected) || (e.verification.checked && !e.verification.verified)
    ensures Analysis(e).localGrade == F
  {
    var handshake := SecurityFinding(TLSHandshake, Critical, Fail, BlankDash(e.tls.error));
    var trust := SecurityFinding(CertificateTrust, Critical, Fail, Join(e.verification.errors, "; "));
    assert e.tls.attempted && !e.tls.connected ==> handshake in ConnectionFindings(e);
    assert e.verification.checked && !e.verification.verified ==> trust in TrustFindings(e.verification);
    var f := if e.tls.attempted && !e.tls.connected then handshake else trust;
    FindingsByPart(e, f);
    hide ConnectionFindings, TrustFindings, Findings, Analysis;
    CriticalMeansF(e, f);
  }

  lemma {:induction false} PenaltyOfMember(fs: seq<SecurityFinding>, f: SecurityFinding)
    requires f in fs
    ensures Penalty(fs) >= Cost(f)
  {
    if fs[0] != f { PenaltyOfMember(fs[1..], f); }
  }

  /** A report on plain HTTP scores at most 75 and is graded C, D or F. */
  lemma PlainHTTPCapsGrade(e: Evidence)
    requires e.protocol == "HTTP" && e.http.plaintext
    ensures Analysis(e).score <= 75
    ensures Rank(Analysis(e).localGrade) <= Rank(C) && Analysis(e).localGrade != Ungraded
  {
    var f := SecurityFinding(PlainHTTP, High, Fail, "");
    PlainHTTPFinding(e);
    hide Findings, Analysis;
    PenaltyOfMember(Findings(e), f);
    PenaltyCaps(e, 25);
  }

  lemma PlainHTTPFinding(e: Evidence)
    ensures SecurityFinding(PlainHTTP, High, Fail, "") in Findings(e) <==> e.protocol == "HTTP" && e.http.plaintext
  {
    FindingsByPart(e, SecurityFinding(PlainHTTP, High, Fail, ""));
    hide Findings;
  }
}
