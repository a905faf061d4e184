/** What every run of a check guarantees, from the outside world to the grade. */
module RunMeaning {
  import opened Bytes
  import opened Report
  import opened Text
  import opened DnsMessage
  import opened DnsCodec
  import opened CaaLookup
  import opened CaaZone
  import opened Ciphers
  import opened Chain
  import opened Grading
  import opened Security
  import opened GradeMeaning
  import opened CheckRun

  // ----- The run graph -----

  /** Which parts of a report a run fills in. */
  lemma RunGraph(t: Target, opt: Options, w: World)
    ensures var e := EvidenceOf(t, opt, w);
            && (e.tls.connected ==> e.tls.attempted)
            && (e.protocol == "HTTP" <==> !e.tls.attempted)
            && (e.http.attempted <==> !opt.skipHTTP && (e.protocol == "HTTP" || e.tls.connected))
            && (e.http.reachable || e.http.plaintext ==> e.http.attempted)
            && (e.verification.checked <==> e.certificates != [])
            && |e.certificates| == e.tls.peerCertificateCount
            && (e.tls.supportedVersions != [] <==> e.tls.connected && !opt.skipTLSProbe)
            && (e.tls.supportedCiphers != [] ==> e.tls.connected && !opt.skipCiphers)
  {
    hide InfoOf, DNSOf, WarningsOf, RequestOf, Pairs, ProbedVersion, Entry, CIPHER_VERSIONS;
  }

  /** A run without errors is one whose handshake, if any, and request, if any, went well. */
  lemma CleanRun(t: Target, opt: Options, w: World)
    ensures var e := EvidenceOf(t, opt, w);
            var clean := (e.tls.attempted ==> e.tls.connected) && (e.http.attempted ==> e.http.reachable);
            ErrorsOfRun(t, opt, w) == [] <==> clean
  {
    hide InfoOf, DNSOf, WarningsOf, RequestOf, VersionsProbed, CiphersProbed, CertificatesInfo, VerificationOfRun;
  }

  /** The plain HTTP fallback after a failed handshake is never due. */
  lemma FallbackNeverDue(input: bytes, opt: Options, w: World, t: Target)
    requires Admitted(input, opt, w) == Ok(t)
    ensures Plain(t, opt) || opt.forceTLS || t.scheme == "https"
  {
  }

  // ----- Plain HTTP -----

  /** An http target without --force-tls is reported as plain exactly when its HTTP
      check is not skipped, and then caps the score at 75 and the grade at C. */
  lemma PlainRunCaps(t: Target, opt: Options, w: World)
    ensures var e := EvidenceOf(t, opt, w);
            var plain := t.scheme == "http" && !opt.forceTLS && !opt.skipHTTP;
            && (SecurityFinding(PlainHTTP, High, Fail, "") in Findings(e) <==> plain)
            && (plain ==> Analysis(e).score <= 75 && Analysis(e).localGrade in {C, D, F})
  {
    var e := EvidenceOf(t, opt, w);
    assert Plain(t, opt) <==> t.scheme == "http" && !opt.forceTLS;
    PlaintextRuns(t, opt, w);
    hide *;
    PlainHTTPFinding(e);
    if e.protocol == "HTTP" && e.http.plaintext {
      PlainHTTPCapsGrade(e);
      AtMostC(Analysis(e).localGrade);
    }
  }

  lemma PlaintextRuns(t: Target, opt: Options, w: World)
    ensures var e := EvidenceOf(t, opt, w);
            e.protocol == "HTTP" && e.http.plaintext <==> Plain(t, opt) && !opt.skipHTTP
  {
    hide InfoOf, DNSOf, TLSOf, WarningsOf, RequestOf, CertificatesInfo, VerificationOfRun;
  }

  lemma AtMostC(g: Grade)
    requires Rank(g) <= Rank(C) && g != Ungraded
    ensures g == C || g == D || g == F
  {
  }

  /** With its HTTP check skipped, a plain run is charged for name resolution
      alone: nothing in its score tells that there is no TLS at all. */
  lemma SkippedPlainRunScore(t: Target, opt: Options, w: World)
    requires t.scheme == "http" && !opt.forceTLS && opt.skipHTTP
    ensures var charged := If(NoAddress(t, opt, w), 25) + If(StrayWarning(t, opt, w), 10);
            Analysis(EvidenceOf(t, opt, w)).score == 100 - charged
  {
    SkippedPlainRunEvidence(t, opt, w);
    BareReport(EvidenceOf(t, opt, w));
    hide Findings, EvidenceOf;
  }

  lemma SkippedPlainRunEvidence(t: Target, opt: Options, w: World)
    requires Plain(t, opt) && opt.skipHTTP
    ensures var e := EvidenceOf(t, opt, w);
            && e.tls == NO_TLS && e.http == NO_HTTP && e.verification == NO_VERIFICATION && e.certificates == []
            && NoAddressFound(e) == NoAddress(t, opt, w)
            && Mentions(e.warnings) == If(StrayWarning(t, opt, w), 1)
  {
    PlainRun(t, opt, w);
    Untouched(t, opt, w);
    PlainTextMentionsNoChain();
    MentionsListed(DNSWarning(t, opt, w), PlainHTTPText());
    hide TLSOf, HTTPOf, DNSWarning, PlainHTTPText, EvidenceOf, RelevantSet, Domains, MentionsChain, Mentions,
      SNIName, VerifyName;
  }

  predicate NoAddressFound(e: Evidence) {
    e.dns.attempted && !e.target.target.isIP && e.dns.a == [] && e.dns.aaaa == []
  }

  /** Name resolution was asked for and found no address. */
  predicate NoAddress(t: Target, opt: Options, w: World) {
    && !opt.skipDNS && !t.isIP
    && Answered(w.resolver.lookupIP4(t.host), []) == [] && Answered(w.resolver.lookupIP6(t.host), []) == []
  }

  /** Name resolution failed, for a reason in words that the analysis takes for a chain problem. */
  predicate StrayWarning(t: Target, opt: Options, w: World) {
    DNSWarning(t, opt, w).Some? && MentionsChain(DNSWarning(t, opt, w).value)
  }

  lemma MentionsListed(o: Option<string>, last: string)
    ensures Mentions(Listed(o)) == if o.Some? && MentionsChain(o.value) then 1 else 0
    ensures !MentionsChain(last) ==> Mentions(Listed(o) + [last]) == Mentions(Listed(o))
  {
    hide MentionsChain;
    MentionsConcat(Listed(o), [last]);
  }

  /** What a report with nothing about certificates, versions, suites and headers is charged for. */
  lemma BareReport(e: Evidence)
    requires e.tls.attempted ==> e.tls.connected
    requires !e.tls.compression && e.tls.supportedVersions == [] && e.tls.supportedCiphers == []
    requires e.http == NO_HTTP && !e.verification.checked && e.certificates == []
    ensures Penalty(Findings(e)) == 10 * Mentions(e.warnings) + If(NoAddressFound(e), 25)
  {
    var tls := e.tls;
    assert Penalty(ConnectionFindings(e)) == 0 by { PenaltyRules(); }
    assert Penalty(ProtocolFindings(tls)) == 0 by { ProtocolPenalty(tls); }
    assert Penalty(CipherFindings([])) == 0 by { CipherPenalty([]); }
    assert Penalty(VulnerabilityFindings(tls)) == 0 by { VulnerabilityPenalty(tls); }
    CountOfChain(e.warnings);
    FindingsPenalty(e);
    BarePenalty(e);
  }

  lemma BarePenalty(e: Evidence)
    requires e.http == NO_HTTP && !e.verification.checked && e.certificates == []
    ensures Penalty(FindingsBefore(e)) == Penalty(ConnectionFindings(e)) + Penalty(ChainFindings(e.warnings))
    ensures Penalty(FindingsBetween(e)) == If(NoAddressFound(e), 25)
  {
    PenaltyRules();
    hide ConnectionFindings, ChainFindings, Penalty, When;
    assert Penalty([]) == 0 by { NoCountsNoPenalty([]); }
  }

  // ----- Chain defects -----

  /** The chain findings of every run: on a connected run that was shown
      certificates, one for each defect of the chain, and ten points less for
      each; on any other run none, but for a name resolution failure in the
      same words. */
  lemma ChainFindingsOfRun(t: Target, opt: Options, w: World)
    ensures var e, peers := EvidenceOf(t, opt, w), Peers(t, opt, w);
            var found := CountOf(Findings(e), ChainInstallation);
            && found == (if peers != [] then Defects(w.x509, peers, w.x509.verify(peers, None).Some?)
                         else if Connected(t, opt, w) then 0
                         else If(StrayWarning(t, opt, w), 1))
            && Analysis(e).score <= (if 10 * found < 100 then 100 - 10 * found else 0)
  {
    WarningsOfRunMention(t, opt, w);
    hide *;
    ChainFindingsFollowWarnings(EvidenceOf(t, opt, w));
  }

  lemma WarningsOfRunMention(t: Target, opt: Options, w: World)
    ensures EvidenceOf(t, opt, w).warnings == WarningsOf(t, opt, w)
    ensures var peers := Peers(t, opt, w);
            Mentions(WarningsOf(t, opt, w))
            == if peers != [] then Defects(w.x509, peers, w.x509.verify(peers, None).Some?)
               else if Connected(t, opt, w) then 0
               else If(StrayWarning(t, opt, w), 1)
  {
    if Peers(t, opt, w) != [] {
      WarningsMentionDefects(w.x509, Peers(t, opt, w), t, opt);
    } else {
      MentionsListed(DNSWarning(t, opt, w), PlainHTTPText());
      PlainTextMentionsNoChain();
    }
    hide Defects, MentionsChain, DNSWarning, PlainHTTPText, InfoOf, TLSOf, HTTPOf, DNSOf, VerificationOfRun,
      CertificatesInfo;
  }

  /** A host name is enough: the resolver repeats it in its error, and a target
      that was never reached is reported for its certificate chain. */
  lemma UnreachedHostWithChainFinding(t: Target, opt: Options, w: World, front: string, rest: string)
    requires !opt.skipDNS && !t.isIP && !Connected(t, opt, w)
    requires w.resolver.lookupIP4(t.host) == Err(front + ("intermediate" + rest))
    ensures CountOf(Findings(EvidenceOf(t, opt, w)), ChainInstallation) == 1
    ensures EvidenceOf(t, opt, w).certificates == []
  {
    Stray(t, opt, w, front, rest);
    Untouched(t, opt, w);
    ChainFindingsOfRun(t, opt, w);
    hide Findings, StrayWarning, InfoOf, TLSOf, HTTPOf, DNSOf, VerificationOfRun, WarningsOf, CountOf, Connected,
      CertificatesInfo;
  }

  lemma Stray(t: Target, opt: Options, w: World, front: string, rest: string)
    requires !opt.skipDNS && !t.isIP && w.resolver.lookupIP4(t.host) == Err(front + ("intermediate" + rest))
    ensures StrayWarning(t, opt, w)
  {
    var prefix := "dns: A lookup failed: ";
    MentionedInside(prefix + front, "intermediate", rest);
    assert prefix + (front + ("intermediate" + rest)) == prefix + front + ("intermediate" + rest);
    hide MentionsChain;
  }

  // ----- Verification -----

  /** What the command counts as an invalid target. */
  predicate Invalid(e: Evidence) {
    e.tls.attempted && (!e.tls.connected || !e.verification.verified)
  }

  /** An invalid run is reported as a critical failure, and so graded F,
      exactly when it is not a completed handshake without certificates. */
  lemma InvalidRunsFail(t: Target, opt: Options, w: World)
    requires Invalid(EvidenceOf(t, opt, w))
    ensures var e := EvidenceOf(t, opt, w);
            var reported := exists f | f in Findings(e) ::
              f.id in {TLSHandshake, CertificateTrust} && IsCriticalFailure(f);
            reported <==> (Connected(t, opt, w) ==> Peers(t, opt, w) != [])
    ensures (Connected(t, opt, w) ==> Peers(t, opt, w) != []) ==> Analysis(EvidenceOf(t, opt, w)).localGrade == F
  {
    var e := EvidenceOf(t, opt, w);
    var unreported := Connected(t, opt, w) && Peers(t, opt, w) == [];
    InvalidRunEvidence(t, opt, w);
    hide EvidenceOf, Connected, Peers, Invalid;
    if !unreported {
      InvalidMeansF(e);
      FailureReported(e);
    } else {
      NoFailureReported(e);
    }
  }

  lemma InvalidRunEvidence(t: Target, opt: Options, w: World)
    requires Invalid(EvidenceOf(t, opt, w))
    ensures var e := EvidenceOf(t, opt, w);
            && e.tls.connected == Connected(t, opt, w)
            && (e.tls.attempted && !e.tls.connected) == !Connected(t, opt, w)
            && (e.verification.checked && !e.verification.verified) == (Peers(t, opt, w) != [])
            && (e.verification.checked ==> e.tls.connected)
  {
    hide InfoOf, DNSOf, HTTPOf, WarningsOf, CertificatesInfo, ErrorsOf;
  }

  lemma FailureReported(e: Evidence)
    requires (e.tls.attempted && !e.tls.connected) || (e.verification.checked && !e.verification.verified)
    ensures exists f | f in Findings(e) :: f.id in {TLSHandshake, CertificateTrust} && IsCriticalFailure(f)
  {
    var handshake := SecurityFinding(TLSHandshake, Critical, Fail, BlankDash(e.tls.error));
    var trust := SecurityFinding(CertificateTrust, Critical, Fail, Join(e.verification.errors, "; "));
    FindingsByPart(e, handshake);
    FindingsByPart(e, trust);
    assert e.tls.attempted && !e.tls.connected ==> handshake in ConnectionFindings(e);
    assert e.verification.checked && !e.verification.verified ==> trust in TrustFindings(e.verification);
    hide Findings, ConnectionFindings, TrustFindings;
    assert handshake in Findings(e) || trust in Findings(e);
    assert IsCriticalFailure(handshake) && IsCriticalFailure(trust);
  }

  lemma NoFailureReported(e: Evidence)
    requires !(e.tls.attempted && !e.tls.connected) && !e.verification.checked
    ensures !exists f | f in Findings(e) :: f.id in {TLSHandshake, CertificateTrust} && IsCriticalFailure(f)
  {
    assert TrustFindings(e.verification) == [];
    NoHandshakeFailure(e);
    hide Findings, ConnectionFindings, TrustFindings, IsCriticalFailure;
    forall f: SecurityFinding | f.id in {TLSHandshake, CertificateTrust}
      ensures f !in Findings(e)
    {
      FindingsByPart(e, f);
    }
  }

  lemma NoHandshakeFailure(e: Evidence)
    requires !(e.tls.attempted && !e.tls.connected)
    ensures forall f | f in ConnectionFindings(e) :: f.id != TLSHandshake
  {
  }

  /** What that exception would come to under a TLS library that let it happen:
      crypto/tls refuses an empty certificate list, so that no run of the program
      is one. With nothing else asked for it would be graded A+. */
  lemma EmptyHandshakeIsPerfect(t: Target, opt: Options, w: World)
    requires Connected(t, opt, w) && Peers(t, opt, w) == []
    requires opt.skipDNS && opt.skipHTTP && opt.skipTLSProbe && opt.skipCiphers
    ensures Invalid(EvidenceOf(t, opt, w))
    ensures Analysis(EvidenceOf(t, opt, w)).score == 100 && Analysis(EvidenceOf(t, opt, w)).localGrade == APlus
  {
    EmptyHandshakeEvidence(t, opt, w);
    var e := EvidenceOf(t, opt, w);
    BareReport(e);
    assert Invalid(e) && Mentions([]) == 0 && !NoAddressFound(e);
    hide *;
    PerfectScore(e);
  }

  lemma PerfectScore(e: Evidence)
    requires Penalty(Findings(e)) == 0
    ensures Analysis(e).score == 100 && Analysis(e).localGrade == APlus
  {
    hide Findings;
    NoNearPerfectGap(e);
  }

  lemma EmptyHandshakeEvidence(t: Target, opt: Options, w: World)
    requires Connected(t, opt, w) && Peers(t, opt, w) == []
    requires opt.skipDNS && opt.skipHTTP && opt.skipTLSProbe && opt.skipCiphers
    ensures var e := EvidenceOf(t, opt, w);
            && e.tls.attempted && e.tls.connected && !e.tls.compression
            && e.tls.supportedVersions == [] && e.tls.supportedCiphers == []
            && e.http == NO_HTTP && e.dns == NO_DNS && e.certificates == [] && e.warnings == []
            && !e.verification.checked && !e.verification.verified
  {
    hide InfoOf, NoPeersText, SNIName, VerifyName;
  }

  // ----- Probes -----

  /** `hs'` completes every handshake that `hs` does, and no more of the modern versions. */
  ghost predicate AcceptsAtLeast(hs: Handshakes, hs': Handshakes) {
    && (forall v, s :: hs.withSuite(v, s).None? ==> hs'.withSuite(v, s).None?)
    && (forall v :: hs.withVersion(v).Ok? ==> hs'.withVersion(v).Ok?)
    && (forall v | v != TLS10_VERSION.value && v != TLS11_VERSION.value ::
      hs'.withVersion(v).Ok? == hs.withVersion(v).Ok?)
  }

  /** Two runs against servers alike but for what they accept when probed: the
      one that accepts more suites or obsolete versions never fares better. */
  lemma AcceptingServerNeverFaresBetter(t: Target, opt: Options, w: World, w': World)
    requires w' == w.(handshakes := w'.handshakes)
    requires AcceptsAtLeast(w.handshakes(t, SNIName(t, opt)), w'.handshakes(t, SNIName(t, opt)))
    ensures var info, info' := Analysis(EvidenceOf(t, opt, w)), Analysis(EvidenceOf(t, opt, w'));
            info'.score <= info.score && Rank(info'.localGrade) <= Rank(info.localGrade)
  {
    RunAcceptsMore(t, opt, w, w');
    hide *;
    AcceptingMoreNeverHelps(EvidenceOf(t, opt, w), EvidenceOf(t, opt, w'));
  }

  lemma RunAcceptsMore(t: Target, opt: Options, w: World, w': World)
    requires w' == w.(handshakes := w'.handshakes)
    requires AcceptsAtLeast(w.handshakes(t, SNIName(t, opt)), w'.handshakes(t, SNIName(t, opt)))
    ensures AcceptsMore(EvidenceOf(t, opt, w), EvidenceOf(t, opt, w'))
  {
    var hs, hs' := w.handshakes(t, SNIName(t, opt)), w'.handshakes(t, SNIName(t, opt));
    VersionsGrow(hs, hs');
    CiphersGrow(w.suites, hs, hs');
    RestOfRunSame(t, opt, w, w');
    hide VersionsProbed, CiphersProbed, EvidenceOf, AcceptsAtLeast, AcceptedMore, SupportedMore;
  }

  lemma VersionsGrow(hs: Handshakes, hs': Handshakes)
    requires AcceptsAtLeast(hs, hs')
    ensures |VersionsProbed(hs')| == |VersionsProbed(hs)|
    ensures forall i | 0 <= i < |VersionsProbed(hs)| :: SupportedMore(VersionsProbed(hs)[i], VersionsProbed(hs')[i])
  {
  }

  lemma CiphersGrow(suites: seq<CipherSuite>, hs: Handshakes, hs': Handshakes)
    requires AcceptsAtLeast(hs, hs')
    ensures |CiphersProbed(suites, hs')| == |CiphersProbed(suites, hs)|
    ensures forall i | 0 <= i < |CiphersProbed(suites, hs)| ::
      AcceptedMore(CiphersProbed(suites, hs)[i], CiphersProbed(suites, hs')[i])
  {
    var pairs := Pairs(CIPHER_VERSIONS, suites);
    hide ClassifyCipher, Pairs, AcceptedMore, Entry, AcceptsAtLeast, CIPHER_VERSIONS;
    forall i | 0 <= i < |pairs|
      ensures AcceptedMore(Entry(hs, pairs[i]), Entry(hs', pairs[i]))
    {
      EntryGrows(hs, hs', pairs[i]);
    }
  }

  lemma EntryGrows(hs: Handshakes, hs': Handshakes, p: (Version, CipherSuite))
    requires AcceptsAtLeast(hs, hs')
    ensures AcceptedMore(Entry(hs, p), Entry(hs', p))
  {
    hide ClassifyCipher;
  }

  lemma RestOfRunSame(t: Target, opt: Options, w: World, w': World)
    requires w' == w.(handshakes := w'.handshakes)
    ensures var e, e' := EvidenceOf(t, opt, w), EvidenceOf(t, opt, w');
            var hs, hs' := w.handshakes(t, SNIName(t, opt)), w'.handshakes(t, SNIName(t, opt));
            && e' == e.(tls := e.tls.(supportedVersions := e'.tls.supportedVersions,
                                      supportedCiphers := e'.tls.supportedCiphers))
            && (e'.tls.supportedVersions, e.tls.supportedVersions)
               == (if Connected(t, opt, w) && !opt.skipTLSProbe
                   then (VersionsProbed(hs'), VersionsProbed(hs)) else ([], []))
            && (e'.tls.supportedCiphers, e.tls.supportedCiphers)
               == (if Connected(t, opt, w) && !opt.skipCiphers
                   then (CiphersProbed(w.suites, hs'), CiphersProbed(w.suites, hs)) else ([], []))
  {
    hide InfoOf, RequestOf, SNIName, VersionsProbed, CiphersProbed, CertificatesInfo, VerificationOf, VerifyWarningsOf,
      RelevantSet, Domains, PlainHTTPText;
  }

  /** Over the inventory of a connected run that probes any suite, the cipher
      findings are all passes exactly when every suite the server accepts, under every version
      the suite supports, is classified as modern. */
  lemma CipherPassesMeanModern(t: Target, opt: Options, w: World)
    requires Connected(t, opt, w) && !opt.skipCiphers && Pairs(CIPHER_VERSIONS, w.suites) != []
    ensures CiphersPass(EvidenceOf(t, opt, w)) <==> AcceptsOnlyModern(w.suites, w.handshakes(t, SNIName(t, opt)))
  {
    var hs := w.handshakes(t, SNIName(t, opt));
    InventoryOfRun(t, opt, w);
    hide *;
    AcceptedPairs(w.suites, hs);
    ProbedInventoryIsCoherent(CiphersProbed(w.suites, hs), w.suites, hs);
    CipherPart(EvidenceOf(t, opt, w));
  }

  predicate CiphersPass(e: Evidence) {
    forall f | f in Findings(e) && SubjectOf(f.id) == OfCiphers :: f.status == Pass
  }

  ghost predicate AcceptsOnlyModern(suites: seq<CipherSuite>, hs: Handshakes) {
    forall v, s | v in CIPHER_VERSIONS && s in suites && v.value in s.supportedVersions
                  && hs.withSuite(v.value, s.id).None? ::
      ClassifyCipher(v.name, s).strength == Modern
  }

  lemma InventoryOfRun(t: Target, opt: Options, w: World)
    requires Connected(t, opt, w) && !opt.skipCiphers && Pairs(CIPHER_VERSIONS, w.suites) != []
    ensures var hs := w.handshakes(t, SNIName(t, opt));
            && EvidenceOf(t, opt, w).tls.supportedCiphers == CiphersProbed(w.suites, hs) != []
            && IsInventory(CiphersProbed(w.suites, hs), Pairs(CIPHER_VERSIONS, w.suites), hs)
  {
    RestOfRunSame(t, opt, w, w);
    CiphersProbedAreInventory(w.suites, w.handshakes(t, SNIName(t, opt)));
    hide *;
  }

  lemma CiphersProbedAreInventory(suites: seq<CipherSuite>, hs: Handshakes)
    ensures |CiphersProbed(suites, hs)| == |Pairs(CIPHER_VERSIONS, suites)|
    ensures IsInventory(CiphersProbed(suites, hs), Pairs(CIPHER_VERSIONS, suites), hs)
  {
    hide Pairs, Entry;
  }

  lemma CipherPart(e: Evidence)
    ensures CiphersPass(e) <==> forall f | f in CipherFindings(e.tls.supportedCiphers) :: f.status == Pass
  {
    hide Findings, CipherFindings, SubjectOf;
    forall f
      ensures f in CipherFindings(e.tls.supportedCiphers) <==> f in Findings(e) && SubjectOf(f.id) == OfCiphers
    {
      CipherMember(e, f);
    }
  }

  lemma CipherMember(e: Evidence, f: SecurityFinding)
    ensures f in CipherFindings(e.tls.supportedCiphers) <==> f in Findings(e) && SubjectOf(f.id) == OfCiphers
  {
    hide Findings, CipherFindings, SubjectOf;
    FindingsByPart(e, f);
    CipherPartApart(e.tls.supportedCiphers);
  }

  /** What the inventory accepts, in terms of versions and suites. */
  lemma AcceptedPairs(suites: seq<CipherSuite>, hs: Handshakes)
    ensures AcceptsOnlyModern(suites, hs)
       <==> forall c | c in CiphersProbed(suites, hs) && c.supported :: c.strength == Modern
  {
    var pairs, out := Pairs(CIPHER_VERSIONS, suites), CiphersProbed(suites, hs);
    hide ClassifyCipher, Pairs, CIPHER_VERSIONS;
    forall v, s
      ensures (v, s) in pairs <==> v in CIPHER_VERSIONS && s in suites && v.value in s.supportedVersions
    {
      PairsAreExact(CIPHER_VERSIONS, suites, v, s);
    }
    forall p | p in pairs
      ensures Entry(hs, p) in out
    {
      var i :| 0 <= i < |pairs| && pairs[i] == p;
      assert out[i] == Entry(hs, p);
    }
    forall c | c in out
      ensures exists p | p in pairs :: c == Entry(hs, p)
    {
      var i :| 0 <= i < |out| && out[i] == c;
      assert pairs[i] in pairs;
    }
  }

  /** Where no suite's name is misread, a ROBOT warning caps every run's score at 80 and its grade at B. */
  lemma RobotRunCaps(t: Target, opt: Options, w: World)
    requires NamesAgree(w.suites)
    ensures var e := EvidenceOf(t, opt, w);
            SecurityFinding(Robot, Medium, Warn, "") in Findings(e) ==>
              && SecurityFinding(ForwardSecrecy, Medium, Warn, "") in Findings(e)
              && Analysis(e).score <= 80
              && Rank(Analysis(e).localGrade) <= Rank(B)
  {
    RunInventory(t, opt, w);
    hide *;
    if SecurityFinding(Robot, Medium, Warn, "") in Findings(EvidenceOf(t, opt, w)) {
      RobotCapsGrade(EvidenceOf(t, opt, w));
    }
  }

  lemma RunInventory(t: Target, opt: Options, w: World)
    requires NamesAgree(w.suites)
    ensures forall c | c in EvidenceOf(t, opt, w).tls.supportedCiphers :: IsClassified(c) && !Misread(c.name)
  {
    var pairs, hs := Pairs(CIPHER_VERSIONS, w.suites), w.handshakes(t, SNIName(t, opt));
    var out := CiphersProbed(w.suites, hs);
    InventoryIsOutcome(out, pairs, hs);
    hide Pairs, CIPHER_VERSIONS, Misread, ClassifyCipher;
    forall c | c in out
      ensures IsClassified(c) && !Misread(c.name)
    {
      var i :| 0 <= i < |out| && out[i] == c;
      PairsAreExact(CIPHER_VERSIONS, w.suites, pairs[i].0, pairs[i].1);
      ClassifiedName(c, pairs[i]);
    }
    RestOfRunSame(t, opt, w, w);
    hide EvidenceOf, CiphersProbed, IsClassified;
  }

  // ----- CAA -----

  /** From name server to finding, for servers that answer for `zone` without
      leaving anything out: the report names the relevant CAA records and their
      owner if and only if their reply fits the buffer, and then says that CAA
      is present exactly when the host or a domain above it holds any. */
  lemma CAAReported(t: Target, opt: Options, w: World, zone: Zone)
    requires !opt.skipDNS && !t.isIP
    requires ValidZone(zone) && Serves(w.net, zone, Everything(zone))
    ensures var e, (d, records) := EvidenceOf(t, opt, w), RelevantSet(Domains(t.host), Held(zone));
            && (records != [] ==> Encodable(d))
            && CAAFaithful(e, zone, d, records, records == [] || WholeSize(zone, d) <= 4096)
  {
    ClimbFindsRelevantSet(w.net, zone, t.host);
    CAAOfRun(t, opt, w, zone);
    hide *;
  }

  /** The same for servers that cut their replies at the size of a datagram. */
  lemma CAAReportedThroughTruncation(t: Target, opt: Options, w: World, zone: Zone, kept: Policy)
    requires !opt.skipDNS && !t.isIP
    requires ValidZone(zone) && ValidPolicy(zone, kept) && Truncates(zone, kept) && Serves(w.net, zone, kept)
    ensures var e, (d, records) := EvidenceOf(t, opt, w), RelevantSet(Domains(t.host), Held(zone));
            && (records != [] ==> Encodable(d))
            && CAAFaithful(e, zone, d, records, records == [] || WholeSize(zone, d) <= 512)
  {
    ClimbAgainstTruncation(w.net, zone, kept, t.host);
    CAAOfRun(t, opt, w, zone);
    hide *;
  }

  /** The report shows the relevant records exactly when they are delivered;
      it then tells whether there are any, and it never makes them up. */
  ghost predicate CAAFaithful(e: Evidence, zone: Zone, d: bytes, records: seq<CAARecord>, delivered: bool) {
    var present := SecurityFinding(CAAPresent, Info, Pass, "") in Findings(e);
    var held := exists n | n in Domains(e.target.target.host) :: HasRecords(Held(zone), n);
    && ((e.dns.caaHost, e.dns.caa) == (d, records) <==> delivered)
    && (present ==> held)
    && (delivered ==> (present <==> held))
  }

  lemma CAAOfRun(t: Target, opt: Options, w: World, zone: Zone)
    requires !opt.skipDNS && !t.isIP
    requires var (d, records) := RelevantSet(Domains(t.host), Held(zone));
             records == [] ==> RelevantSet(Domains(t.host), Lookup(w.net)) == (d, records)
    ensures var e, (d, records) := EvidenceOf(t, opt, w), RelevantSet(Domains(t.host), Held(zone));
            CAAFaithful(e, zone, d, records, RelevantSet(Domains(t.host), Lookup(w.net)) == (d, records))
  {
    RunCAA(t, opt, w);
    var found := RelevantSet(Domains(t.host), Lookup(w.net));
    hide *;
    CAAOfEvidence(EvidenceOf(t, opt, w), zone, found);
  }

  lemma CAAOfEvidence(e: Evidence, zone: Zone, found: (bytes, seq<CAARecord>))
    requires e.dns.attempted && !e.target.target.isIP && (e.dns.caaHost, e.dns.caa) == found
    requires var (d, records) := RelevantSet(Domains(e.target.target.host), Held(zone));
             records == [] ==> found == (d, records)
    ensures var (d, records) := RelevantSet(Domains(e.target.target.host), Held(zone));
            CAAFaithful(e, zone, d, records, found == (d, records))
  {
    hide Findings, Domains, RelevantSet, Held, HasRecords;
    CAAFinding(e);
    AnyRelevant(Domains(e.target.target.host), Held(zone));
  }

  lemma RunCAA(t: Target, opt: Options, w: World)
    requires !opt.skipDNS && !t.isIP
    ensures var e := EvidenceOf(t, opt, w);
            && e.dns.attempted && e.target.target == t
            && (e.dns.caaHost, e.dns.caa) == RelevantSet(Domains(t.host), Lookup(w.net))
  {
    hide RelevantSet, Domains, TLSOf, HTTPOf, WarningsOf, VerificationOfRun, CertificatesInfo;
  }

  lemma CAAFinding(e: Evidence)
    requires e.dns.attempted && !e.target.target.isIP
    ensures SecurityFinding(CAAPresent, Info, Pass, "") in Findings(e) <==> e.dns.caa != []
  {
    FindingsByPart(e, SecurityFinding(CAAPresent, Info, Pass, ""));
    hide Findings;
  }

  lemma PlainTextMentionsNoChain()
    ensures !MentionsChain(PlainHTTPText())
  {
    QuietPlain();
    QuietDoes();
    QuietProvide();
    QuietCertificate();
    QuietUse();
    QuietForce();
    QuietServices();
    hide Quiet, MentionsChain, Join;
    QuietPieces(["plain HTTP ", "does not ", "provide a TLS ", "certificate to verify", "; use https:// or ",
                 "--force-tls ", "for TLS services"]);
    QuietMentionsNoChain(PlainHTTPText());
  }

  lemma QuietPlain()
    ensures Quiet("plain HTTP ")
  {
    var s := "plain HTTP ";
    assert ToLower(s) == "plain http ";
    hide ToLower;
  }

  lemma QuietDoes()
    ensures Quiet("does not ")
  {
    var s := "does not ";
    assert ToLower(s) == s;
    hide ToLower;
  }

  lemma QuietProvide()
    ensures Quiet("provide a TLS ")
  {
    var s := "provide a TLS ";
    assert ToLower(s) == "provide a tls ";
    hide ToLower;
  }

  lemma QuietCertificate()
    ensures Quiet("certificate to verify")
  {
    var s := "certificate to verify";
    assert ToLower(s) == s;
    hide ToLower;
  }

  lemma QuietUse()
    ensures Quiet("; use https:// or ")
  {
    var s := "; use https:// or ";
    assert ToLower(s) == s;
    hide ToLower;
  }

  lemma QuietForce()
    ensures Quiet("--force-tls ")
  {
    var s := "--force-tls ";
    assert ToLower(s) == s;
    hide ToLower;
  }

  lemma QuietServices()
    ensures Quiet("for TLS services")
  {
    var s := "for TLS services";
    assert ToLower(s) == "for tls services";
    hide ToLower;
  }

}
