/** Every run in terms of its input and of what the outside world answered:
    what is attempted, what is collected and what is reported for it. */
module RunFacts {
  import opened Bytes
  import opened Report
  import opened Text
  import opened Targets
  import opened CaaLookup
  import opened Ciphers
  import opened Chain
  import opened Security
  import opened GradeMeaning
  import opened CheckRun
  import opened RunMeaning
  import opened Reported

  // ----- What a run attempts -----

  /** Why a check does not start: the first of the two version limits that cannot
      be read, limits the wrong way round, or the target. */
  lemma Refusals(input: bytes, opt: Options, w: World)
    ensures var lo, hi, r := w.versionValue(opt.tlsMin), w.versionValue(opt.tlsMax), Admitted(input, opt, w);
            && (lo.Err? ==> r == Err(BadTLSMin(lo.error)))
            && (lo.Ok? && hi.Err? ==> r == Err(BadTLSMax(hi.error)))
            && (lo.Ok? && hi.Ok? && 0 < hi.value < lo.value ==> r == Err(MinAboveMax))
            && (lo.Ok? && hi.Ok? && !(0 < hi.value < lo.value) ==>
                  match TargetOf(input, opt, w.parsers)
                  case Err(e) => r == Err(BadTarget(e))
                  case Ok(t) => r == Ok(t))
  {
    hide TargetOf;
  }

  /** The name offered in the handshake: the option, else the host unless it is an address. */
  function Offered(t: Target, opt: Options): bytes {
    if opt.serverName == [] && !t.isIP then t.host else opt.serverName
  }

  /** The run is to handshake and the handshake completes with `c`. */
  ghost predicate Shakes(t: Target, opt: Options, w: World, c: Connection) {
    && (t.scheme != "http" || opt.forceTLS)
    && w.versionValue(opt.tlsMin).Ok? && w.versionValue(opt.tlsMax).Ok?
    && w.connect(t, Offered(t, opt), w.versionValue(opt.tlsMin).value, w.versionValue(opt.tlsMax).value) == Ok(c)
  }

  /** The handshake fails for the reason given. */
  ghost predicate Fails(t: Target, opt: Options, w: World, reason: string) {
    && w.versionValue(opt.tlsMin).Ok? && w.versionValue(opt.tlsMax).Ok?
    && w.connect(t, Offered(t, opt), w.versionValue(opt.tlsMin).value, w.versionValue(opt.tlsMax).value) == Err(reason)
  }

  /** TLS is attempted exactly on an https target or with --force-tls, and connects
      exactly when the one handshake for the name and the limits does. */
  lemma HandshakeDecides(input: bytes, opt: Options, w: World, t: Target)
    requires Admitted(input, opt, w) == Ok(t)
    ensures var e, secure := EvidenceOf(t, opt, w), t.scheme == "https" || opt.forceTLS;
            && (e.tls.attempted <==> secure)
            && e.protocol == (if secure then "TLS" else "HTTP")
            && e.target == TargetInfo(t, Offered(t, opt), VerifyName(t, opt))
            && (e.tls.connected <==> exists c :: Shakes(t, opt, w, c))
            && (secure ==> e.tls.sni == Offered(t, opt))
            && (secure && !e.tls.connected ==> Fails(t, opt, w, e.tls.error))
  {
    AdmittedScheme(input, opt, w, t);
    TLSDecided(t, opt, w);
    RunFields(t, opt, w);
    hide TargetOf, Admitted, EvidenceOf, VerifyName;
    if Connected(t, opt, w) {
      assert Shakes(t, opt, w, Connecting(t, opt, w).value);
    }
  }

  lemma TLSDecided(t: Target, opt: Options, w: World)
    ensures var tls := TLSOf(t, opt, w);
            && (tls.attempted <==> !Plain(t, opt))
            && (tls.connected <==> Connected(t, opt, w))
            && (tls.attempted ==> tls.sni == SNIName(t, opt))
            && (tls.attempted && !tls.connected ==> Connecting(t, opt, w) == Err(tls.error))
  {
    hide VersionsProbed, CiphersProbed;
  }

  lemma RunFields(t: Target, opt: Options, w: World)
    ensures var e := EvidenceOf(t, opt, w);
            && e.tls == TLSOf(t, opt, w) && e.protocol == (if Plain(t, opt) then "HTTP" else "TLS")
            && e.target == TargetInfo(t, SNIName(t, opt), VerifyName(t, opt))
  {
    hide TLSOf, WarningsOf, HTTPOf, DNSOf, VerificationOfRun, CertificatesInfo;
  }

  lemma AdmittedScheme(input: bytes, opt: Options, w: World, t: Target)
    requires Admitted(input, opt, w) == Ok(t)
    ensures t.scheme == "http" || t.scheme == "https"
    ensures w.versionValue(opt.tlsMin).Ok? && w.versionValue(opt.tlsMax).Ok?
  {
    hide TargetOf;
    AcceptedTarget(input, opt, w.parsers, t);
  }

  /** What a completed handshake leaves in the report. */
  lemma ConnectionCollected(t: Target, opt: Options, w: World, c: Connection)
    requires Shakes(t, opt, w, c)
    ensures var e := EvidenceOf(t, opt, w);
            && Connected(t, opt, w) && Peers(t, opt, w) == c.peers
            && e.tls.connected && !e.tls.compression
            && e.tls.ocspResponseBytes == c.ocspResponseBytes && e.tls.sctCount == c.sctCount
            && e.tls.peerCertificateCount == |c.peers| == |e.certificates|
            && (forall i | 0 <= i < |c.peers| :: e.certificates[i] == c.peers[i].info)
            && e.verification == VerificationOf(w.x509, c.peers, t, opt)
            && e.warnings == VerifyWarningsOf(w.x509, c.peers, t, opt)
  {
    hide VerificationOf, VerifyWarningsOf, HTTPOf, DNSOf, InfoOf, PlainHTTPText, DNSWarning, VersionsProbed,
      CiphersProbed;
  }

  // ----- Trust -----

  /** What a connected run reports of the certificates it was shown, from the
      answers to signature checks, path building, the clock and the host name. */
  lemma TrustOfRun(t: Target, opt: Options, w: World, c: Connection)
    requires Shakes(t, opt, w, c) && c.peers != []
    ensures var e, x, leaf, name := EvidenceOf(t, opt, w), w.x509, c.peers[0], VerifyName(t, opt);
            && (Said(CertificateTrust, Info, Pass) in Findings(e)
                <==> x.verify(c.peers, if name == [] then None else Some(name)) == None)
            && (Said(SelfSignedLeaf, High, Fail) in Findings(e) <==> x.checkSignatureFrom(leaf, leaf) == None)
            && (Said(CertificateExpired, Critical, Fail) in Findings(e) <==> leaf.notAfter < x.now)
            && (Said(CertificateNotYetValid, High, Fail) in Findings(e) <==> x.now < leaf.notBefore)
            && (Said(HostnameMismatch, Critical, Fail) in Findings(e)
                <==> name != [] && x.verifyHostname(leaf, name) != None)
  {
    ConnectionCollected(t, opt, w, c);
    FlagsAnswer(w.x509, c.peers, t, opt);
    hide *;
    VerdictReported(EvidenceOf(t, opt, w));
  }

  lemma VerdictReported(e: Evidence)
    requires e.verification.checked
    ensures var v := e.verification;
            && (Said(CertificateTrust, Info, Pass) in Findings(e) <==> v.verified)
            && (Said(SelfSignedLeaf, High, Fail) in Findings(e) <==> v.selfSignedLeaf)
            && (Said(CertificateExpired, Critical, Fail) in Findings(e) <==> v.expired)
            && (Said(CertificateNotYetValid, High, Fail) in Findings(e) <==> v.notYetValid)
            && (Said(HostnameMismatch, Critical, Fail) in Findings(e) <==> v.hostnameChecked && !v.hostnameVerified)
  {
    hide Findings;
    TrustReported(e, Said(CertificateTrust, Info, Pass));
    TrustReported(e, Said(SelfSignedLeaf, High, Fail));
    TrustReported(e, Said(CertificateExpired, Critical, Fail));
    TrustReported(e, Said(CertificateNotYetValid, High, Fail));
    TrustReported(e, Said(HostnameMismatch, Critical, Fail));
  }

  /** A proper chain: none of its certificates signed by its own key, each by the next one's. */
  ghost predicate ProperChain(x: X509, certs: seq<Cert>) {
    && (forall k | 0 <= k < |certs| :: x.checkSignatureFrom(certs[k], certs[k]) != None)
    && (forall k | 0 < k < |certs| :: x.checkSignatureFrom(certs[k - 1], certs[k]) == None)
  }

  /** A run that is shown a proper chain that verifies has nothing to say about
      the installation of the chain or about self-signed certificates. */
  lemma ProperChainIsClean(t: Target, opt: Options, w: World, c: Connection)
    requires Shakes(t, opt, w, c) && c.peers != []
    requires ProperChain(w.x509, c.peers) && w.x509.verify(c.peers, None) == None
    ensures var e := EvidenceOf(t, opt, w);
            && CountOf(Findings(e), ChainInstallation) == 0
            && Said(SelfSignedLeaf, High, Fail) !in Findings(e)
  {
    ConnectionCollected(t, opt, w, c);
    TrustOfRun(t, opt, w, c);
    ChainFindingsOfRun(t, opt, w);
    ProperChainHasNoDefects(w.x509, c.peers);
    hide EvidenceOf, Findings, VerificationOf, Defects, CountOf, Analysis, Connected, Peers;
  }

  lemma ProperChainHasNoDefects(x: X509, certs: seq<Cert>)
    requires ProperChain(x, certs)
    ensures Defects(x, certs, false) == 0
  {
    assert (set k: int | 0 < k < |certs| && x.checkSignatureFrom(certs[k], certs[k]).None?) == {};
    forall k | 0 <= k < |certs| - 1
      ensures SignedByNext(x, certs, k)
    {
      assert 0 < k + 1 < |certs|;
    }
    assert (set k: int | 0 <= k < |certs| - 1 && !SignedByNext(x, certs, k)) == {};
  }

  // ----- Probes -----

  /** The server completes a handshake for this suite alone under this version. */
  ghost predicate Accepts(suites: seq<CipherSuite>, hs: Handshakes, value: u16, s: CipherSuite) {
    0x0301 <= value <= 0x0303 && s in suites && value in s.supportedVersions && hs.withSuite(value, s.id) == None
  }

  /** Which versions a connected run finds supported. */
  lemma VersionsOfRun(t: Target, opt: Options, w: World, c: Connection)
    requires Shakes(t, opt, w, c)
    ensures var tls, hs := EvidenceOf(t, opt, w).tls, w.handshakes(t, Offered(t, opt));
            && (tls.supportedVersions == [] <==> opt.skipTLSProbe)
            && (Speaks(tls, "TLS 1.0") <==> !opt.skipTLSProbe && hs.withVersion(0x0301).Ok?)
            && (Speaks(tls, "TLS 1.1") <==> !opt.skipTLSProbe && hs.withVersion(0x0302).Ok?)
            && (Speaks(tls, "TLS 1.2") <==> !opt.skipTLSProbe && hs.withVersion(0x0303).Ok?)
            && (Speaks(tls, "TLS 1.3") <==> !opt.skipTLSProbe && hs.withVersion(0x0304).Ok?)
  {
    RestOfRunSame(t, opt, w, w);
    ConnectionCollected(t, opt, w, c);
    SpokenVersions(w.handshakes(t, Offered(t, opt)));
    hide EvidenceOf, VersionsProbed, CiphersProbed, VerificationOf, VerifyWarningsOf, Connected, Shakes;
  }

  lemma SpokenVersions(hs: Handshakes)
    ensures var vs := VersionsProbed(hs);
            && vs != []
            && ((exists v | v in vs :: v.supported && v.version == "TLS 1.0") <==> hs.withVersion(0x0301).Ok?)
            && ((exists v | v in vs :: v.supported && v.version == "TLS 1.1") <==> hs.withVersion(0x0302).Ok?)
            && ((exists v | v in vs :: v.supported && v.version == "TLS 1.2") <==> hs.withVersion(0x0303).Ok?)
            && ((exists v | v in vs :: v.supported && v.version == "TLS 1.3") <==> hs.withVersion(0x0304).Ok?)
  {
    var vs := VersionsProbed(hs);
    assert vs == [vs[0], vs[1], vs[2], vs[3]];
  }

  /** The entries of a run's inventory: one for each suite under each version that it supports. */
  lemma EntriesOfRun(t: Target, opt: Options, w: World, c: Connection, entry: TLSCipherSupport)
    requires Shakes(t, opt, w, c)
    ensures var hs := w.handshakes(t, Offered(t, opt));
            entry in EvidenceOf(t, opt, w).tls.supportedCiphers <==>
              && !opt.skipCiphers
              && exists v, s ::
                   v in CIPHER_VERSIONS && s in w.suites && v.value in s.supportedVersions && entry == Entry(hs, (v, s))
  {
    RestOfRunSame(t, opt, w, w);
    ConnectionCollected(t, opt, w, c);
    EntriesProbed(w.suites, w.handshakes(t, Offered(t, opt)), entry);
    hide EvidenceOf, VersionsProbed, CiphersProbed, VerificationOf, VerifyWarningsOf, Connected, Shakes, Entry,
      CIPHER_VERSIONS;
  }

  lemma EntriesProbed(suites: seq<CipherSuite>, hs: Handshakes, entry: TLSCipherSupport)
    ensures entry in CiphersProbed(suites, hs) <==>
      exists v, s :: v in CIPHER_VERSIONS && s in suites && v.value in s.supportedVersions && entry == Entry(hs, (v, s))
  {
    var pairs, out := Pairs(CIPHER_VERSIONS, suites), CiphersProbed(suites, hs);
    hide Entry, Pairs, CIPHER_VERSIONS;
    if entry in out {
      var i :| 0 <= i < |out| && out[i] == entry;
      PairsAreExact(CIPHER_VERSIONS, suites, pairs[i].0, pairs[i].1);
      assert entry == Entry(hs, (pairs[i].0, pairs[i].1));
    }
    forall v, s | v in CIPHER_VERSIONS && s in suites && v.value in s.supportedVersions && entry == Entry(hs, (v, s))
      ensures entry in out
    {
      PairsAreExact(CIPHER_VERSIONS, suites, v, s);
      var i :| 0 <= i < |pairs| && pairs[i] == (v, s);
      assert out[i] == entry;
    }
  }

  /** One entry: what was learnt from the handshake, and from the suite's name. */
  lemma EntryFacts(hs: Handshakes, v: Version, s: CipherSuite)
    requires v in CIPHER_VERSIONS
    ensures var entry, upper := Entry(hs, (v, s)), ToUpper(s.name);
            && entry.version == v.name && entry.id == s.id && entry.name == s.name
            && (match hs.withSuite(v.value, s.id)
                case None => entry.supported && entry.error == ""
                case Some(reason) => !entry.supported && entry.error == reason)
            && (IsWeak(entry) <==> WeakSuite(s))
            && (entry.cbc <==> Contains(upper, "_CBC_"))
            && (entry.forwardSecrecy <==> Contains(upper, "_ECDHE_") || Contains(upper, "_DHE_"))
            && (entry.strength == Modern <==>
                  !WeakSuite(s) && v.value == 0x0303 && !Contains(upper, "_CBC_") && entry.forwardSecrecy)
            && (entry.strength == Weak <==> WeakSuite(s))
  {
    ClassifiedByName(v, s);
    hide ClassifyCipher, Contains, ToUpper, CIPHER_VERSIONS;
  }

  /** Marked insecure, or RC4 or triple DES by name. */
  predicate WeakSuite(s: CipherSuite) {
    s.insecure || Contains(ToUpper(s.name), "_RC4_") || Contains(ToUpper(s.name), "_3DES_")
  }

  /** Whether some accepted entry is as `p` says, in terms of versions and suites. */
  lemma AcceptedOfRun(t: Target, opt: Options, w: World, c: Connection, p: TLSCipherSupport -> bool)
    requires Shakes(t, opt, w, c)
    ensures var hs := w.handshakes(t, Offered(t, opt));
            AnyAccepted(EvidenceOf(t, opt, w).tls.supportedCiphers, p) <==>
              && !opt.skipCiphers
              && exists v, s :: v in CIPHER_VERSIONS && Accepts(w.suites, hs, v.value, s) && p(Entry(hs, (v, s)))
  {
    var hs, ciphers := w.handshakes(t, Offered(t, opt)), EvidenceOf(t, opt, w).tls.supportedCiphers;
    hide EvidenceOf, Shakes, Entry, CIPHER_VERSIONS;
    if AnyAccepted(ciphers, p) {
      var entry :| entry in ciphers && entry.supported && p(entry);
      EntriesOfRun(t, opt, w, c, entry);
      var v, s :| v in CIPHER_VERSIONS && s in w.suites && v.value in s.supportedVersions && entry == Entry(hs, (v, s));
      EntryFacts(hs, v, s);
      CipherVersions(v);
      assert Accepts(w.suites, hs, v.value, s);
    }
    forall v, s | !opt.skipCiphers && v in CIPHER_VERSIONS && Accepts(w.suites, hs, v.value, s) && p(Entry(hs, (v, s)))
      ensures AnyAccepted(ciphers, p)
    {
      EntriesOfRun(t, opt, w, c, Entry(hs, (v, s)));
      EntryFacts(hs, v, s);
    }
  }

  /** BEAST is warned of exactly when the server completes a handshake under TLS
      1.0, and one under TLS 1.0 with a suite that has "_CBC_" in its name. */
  lemma BeastOfRun(t: Target, opt: Options, w: World, c: Connection)
    requires Shakes(t, opt, w, c)
    ensures var hs := w.handshakes(t, Offered(t, opt));
            Said(Beast, Medium, Warn) in Findings(EvidenceOf(t, opt, w)) <==>
              && !opt.skipTLSProbe && !opt.skipCiphers && hs.withVersion(0x0301).Ok?
              && exists s :: Accepts(w.suites, hs, 0x0301, s) && Contains(ToUpper(s.name), "_CBC_")
  {
    BeastFinding(EvidenceOf(t, opt, w));
    SpeaksIsSupported(EvidenceOf(t, opt, w).tls, "TLS 1.0");
    VersionsOfRun(t, opt, w, c);
    CBCOfRun(t, opt, w, c);
    hide EvidenceOf, Findings, Shakes, Accepts, Speaks, VersionSupported, AnyAccepted, Contains;
  }

  lemma CBCOfRun(t: Target, opt: Options, w: World, c: Connection)
    requires Shakes(t, opt, w, c)
    ensures var hs := w.handshakes(t, Offered(t, opt));
            AnyAccepted(EvidenceOf(t, opt, w).tls.supportedCiphers, IsCBCUnderTLS10) <==>
              !opt.skipCiphers && exists s :: Accepts(w.suites, hs, 0x0301, s) && Contains(ToUpper(s.name), "_CBC_")
  {
    var hs := w.handshakes(t, Offered(t, opt));
    AcceptedOfRun(t, opt, w, c, IsCBCUnderTLS10);
    hide EvidenceOf, Shakes, Accepts, AnyAccepted, Entry, Contains, CIPHER_VERSIONS;
    forall v: Version, s | v in CIPHER_VERSIONS
      ensures IsCBCUnderTLS10(Entry(hs, (v, s))) <==> v.value == 0x0301 && Contains(ToUpper(s.name), "_CBC_")
    {
      EntryFacts(hs, v, s);
      CipherVersions(v);
    }
    CipherVersions(Version("TLS 1.0", 0x0301));
    assert forall s :: Accepts(w.suites, hs, Version("TLS 1.0", 0x0301).value, s) == Accepts(w.suites, hs, 0x0301, s);
  }

  /** An accepted TLS 1.2 suite is in the inventory, and modern exactly when it is
      not marked insecure, has a key exchange with forward secrecy in its name,
      and none of RC4, triple DES and CBC. */
  lemma ModernOfRun(t: Target, opt: Options, w: World, c: Connection, s: CipherSuite)
    requires Shakes(t, opt, w, c) && !opt.skipCiphers
    requires Accepts(w.suites, w.handshakes(t, Offered(t, opt)), 0x0303, s)
    ensures exists entry | entry in EvidenceOf(t, opt, w).tls.supportedCiphers ::
      && entry.version == "TLS 1.2" && entry.id == s.id && entry.name == s.name && entry.supported
      && (entry.strength == Modern <==> ModernName(s))
  {
    var hs, v := w.handshakes(t, Offered(t, opt)), Version("TLS 1.2", 0x0303);
    CipherVersions(v);
    EntriesOfRun(t, opt, w, c, Entry(hs, (v, s)));
    EntryFacts(hs, v, s);
    hide EvidenceOf, Shakes, Entry, Contains, CIPHER_VERSIONS;
    var entry := Entry(hs, (v, s));
    assert entry in EvidenceOf(t, opt, w).tls.supportedCiphers;
  }

  predicate ModernName(s: CipherSuite) {
    var upper := ToUpper(s.name);
    && !s.insecure && (Contains(upper, "_ECDHE_") || Contains(upper, "_DHE_"))
    && !Contains(upper, "_RC4_") && !Contains(upper, "_3DES_") && !Contains(upper, "_CBC_")
  }

  /** What a connected run with a cipher scan reports of the suites accepted. */
  lemma SuitesOfRun(t: Target, opt: Options, w: World, c: Connection)
    requires Shakes(t, opt, w, c)
    ensures var ciphers, hs := EvidenceOf(t, opt, w).tls.supportedCiphers, w.handshakes(t, Offered(t, opt));
            && (AnyAccepted(ciphers, IsWeak) <==>
                  !opt.skipCiphers && exists value, s :: Accepts(w.suites, hs, value, s) && WeakSuite(s))
            && (AnyAccepted(ciphers, IsLegacy) <==>
                  !opt.skipCiphers && exists value, s :: Accepts(w.suites, hs, value, s) && LegacySuite(value, s))
            && (AnyAccepted(ciphers, LacksForwardSecrecy) <==>
                  !opt.skipCiphers && exists value, s :: Accepts(w.suites, hs, value, s) && !ForwardSecretName(s.name))
            && (AnyAccepted(ciphers, IsStaticRSA) <==>
                  !opt.skipCiphers && exists value, s :: Accepts(w.suites, hs, value, s) && StaticRSAName(s.name))
  {
    EntryMarks(w.handshakes(t, Offered(t, opt)));
    hide EvidenceOf, Shakes, AnyAccepted, Entry, Accepts, WeakSuite, LegacySuite, ForwardSecretName, StaticRSAName,
      CIPHER_VERSIONS, IsWeak, IsLegacy, LacksForwardSecrecy, IsStaticRSA;
    SuitesWith(t, opt, w, c, IsWeak, (value: u16, s: CipherSuite) => WeakSuite(s));
    SuitesWith(t, opt, w, c, IsLegacy, LegacySuite);
    SuitesWith(t, opt, w, c, LacksForwardSecrecy, (value: u16, s: CipherSuite) => !ForwardSecretName(s.name));
    SuitesWith(t, opt, w, c, IsStaticRSA, (value: u16, s: CipherSuite) => StaticRSAName(s.name));
  }

  /** The same for any mark of an entry that comes from the version and the suite. */
  lemma SuitesWith(t: Target, opt: Options, w: World, c: Connection,
                   p: TLSCipherSupport -> bool, q: (u16, CipherSuite) -> bool)
    requires Shakes(t, opt, w, c)
    requires var hs := w.handshakes(t, Offered(t, opt));
             forall v: Version, s | v in CIPHER_VERSIONS :: p(Entry(hs, (v, s))) == q(v.value, s)
    ensures var hs := w.handshakes(t, Offered(t, opt));
            AnyAccepted(EvidenceOf(t, opt, w).tls.supportedCiphers, p) <==>
              !opt.skipCiphers && exists value, s :: Accepts(w.suites, hs, value, s) && q(value, s)
  {
    var hs := w.handshakes(t, Offered(t, opt));
    AcceptedOfRun(t, opt, w, c, p);
    hide EvidenceOf, Shakes, AnyAccepted, Entry, CIPHER_VERSIONS;
    forall value, s | Accepts(w.suites, hs, value, s) && q(value, s)
      ensures exists v, s :: v in CIPHER_VERSIONS && Accepts(w.suites, hs, v.value, s) && p(Entry(hs, (v, s)))
    {
      var v := VersionFor(value);
      assert p(Entry(hs, (v, s)));
    }
  }

  lemma VersionFor(value: u16) returns (v: Version)
    requires 0x0301 <= value <= 0x0303
    ensures v in CIPHER_VERSIONS && v.value == value
  {
    v := CIPHER_VERSIONS[value - 0x0301];
  }

  /** Not yet weak, but with CBC, under an obsolete version or without forward secrecy; CBC in any case. */
  predicate LegacySuite(value: u16, s: CipherSuite) {
    Contains(ToUpper(s.name), "_CBC_") || (!WeakSuite(s) && (value != 0x0303 || !ForwardSecretName(s.name)))
  }

  lemma EntryMarks(hs: Handshakes)
    ensures forall v: Version, s | v in CIPHER_VERSIONS ::
      && IsWeak(Entry(hs, (v, s))) == WeakSuite(s)
      && IsLegacy(Entry(hs, (v, s))) == LegacySuite(v.value, s)
      && LacksForwardSecrecy(Entry(hs, (v, s))) == !ForwardSecretName(s.name)
      && IsStaticRSA(Entry(hs, (v, s))) == StaticRSAName(s.name)
  {
    forall v: Version, s | v in CIPHER_VERSIONS
      ensures IsWeak(Entry(hs, (v, s))) == WeakSuite(s)
      ensures IsLegacy(Entry(hs, (v, s))) == LegacySuite(v.value, s)
      ensures LacksForwardSecrecy(Entry(hs, (v, s))) == !ForwardSecretName(s.name)
      ensures IsStaticRSA(Entry(hs, (v, s))) == StaticRSAName(s.name)
    {
      EntryFacts(hs, v, s);
      hide Entry, Contains, ToUpper, CIPHER_VERSIONS, StaticRSAName, WeakSuite;
    }
  }

  // ----- HTTP and name resolution -----

  /** What a run that asks over HTTP sends, and what it makes of the answer: of
      HEAD, or of GET when HEAD fails in time. */
  lemma HTTPOfRun(t: Target, opt: Options, w: World)
    requires t.scheme == "http" || t.scheme == "https"
    ensures var e := EvidenceOf(t, opt, w);
            var secure := t.scheme == "https" || opt.forceTLS;
            var url := (if t.scheme == "http" then Ascii("http://") else Ascii("https://")) + t.address + t.path;
            var name := Offered(t, opt);
            var request := Request(url, if t.scheme == "https" then name else [],
                                   if t.isIP && name != [] then Some(name) else None);
            && (e.http.attempted <==> !opt.skipHTTP && (secure ==> e.tls.connected))
            && (e.http.attempted ==>
                  && e.http.url == url && (e.http.plaintext <==> t.scheme == "http")
                  && (e.http.reachable <==>
                        && w.web.refuse(url) == None
                        && (w.web.head(request).Ok? || (!w.web.cancelled && w.web.get(request).Ok?)))
                  && (e.http.reachable ==>
                        var answer :=
                          if w.web.head(request).Ok? then w.web.head(request).value else w.web.get(request).value;
                        e.http.statusCode == answer.statusCode && e.http.securityHeaders == answer.securityHeaders))
  {
    TLSDecided(t, opt, w);
    RequestOfRun(t, opt);
    HTTPAnswered(t, opt, w);
    hide TLSOf, HTTPOf, DNSOf, WarningsOf, VerificationOfRun, CertificatesInfo, Ascii, VerifyName, RequestOf,
      Connecting;
  }

  lemma RequestOfRun(t: Target, opt: Options)
    requires t.scheme == "http" || t.scheme == "https"
    ensures var url := (if t.scheme == "http" then Ascii("http://") else Ascii("https://")) + t.address + t.path;
            RequestOf(t, opt) == Request(url, if t.scheme == "https" then Offered(t, opt) else [],
                                         if t.isIP && Offered(t, opt) != [] then Some(Offered(t, opt)) else None)
  {
    assert HTTP_PREFIX == Ascii("http://") && HTTPS_PREFIX == Ascii("https://");
    hide Ascii, HTTP_PREFIX, HTTPS_PREFIX;
  }

  lemma HTTPAnswered(t: Target, opt: Options, w: World)
    ensures var http, request, web := HTTPOf(t, opt, w), RequestOf(t, opt), w.web;
            && (http.attempted <==> AsksHTTP(t, opt, w))
            && (http.attempted ==>
                  && http.url == request.url && (http.plaintext <==> t.scheme == "http")
                  && (http.reachable <==>
                        web.refuse(request.url) == None
                        && (web.head(request).Ok? || (!web.cancelled && web.get(request).Ok?)))
                  && (http.reachable ==>
                        var answer := if web.head(request).Ok? then web.head(request).value else web.get(request).value;
                        http.statusCode == answer.statusCode && http.securityHeaders == answer.securityHeaders))
  {
    hide RequestOf, AsksHTTP;
  }

  /** What name resolution brings: names for an address; else the canonical name,
      the addresses of both families and the climb's answer, whatever is answered. */
  lemma ResolutionOfRun(t: Target, opt: Options, w: World)
    ensures var dns := EvidenceOf(t, opt, w).dns;
            && (dns.attempted <==> !opt.skipDNS)
            && (dns.attempted ==> dns.hostname == t.host)
            && (dns.attempted && t.isIP ==>
                  && (match w.resolver.lookupAddr(t.host)
                      case Ok(names) => dns.ptr == names && dns.error == ""
                      case Err(reason) => dns.ptr == [] && dns.error == reason)
                  && dns.a == [] && dns.aaaa == [] && dns.caa == [])
            && (dns.attempted && !t.isIP ==>
                  && (match w.resolver.lookupCNAME(t.host)
                      case Ok(name) => dns.cname == name
                      case Err(_) => dns.cname == [])
                  && (match w.resolver.lookupIP4(t.host)
                      case Ok(addresses) => dns.a == addresses
                      case Err(_) => dns.a == [])
                  && (match w.resolver.lookupIP6(t.host)
                      case Ok(addresses) => dns.aaaa == addresses
                      case Err(_) => dns.aaaa == [])
                  && (dns.caaHost, dns.caa) == RelevantSet(Domains(t.host), Lookup(w.net)))
  {
    hide TLSOf, HTTPOf, WarningsOf, VerificationOfRun, CertificatesInfo, RelevantSet, Domains, SNIName, VerifyName;
  }

  // ----- Warnings and errors -----

  /** The warnings of a run that does not connect: a failed resolution, word for
      word, and that plain HTTP has no certificate. */
  lemma WarningsWithoutConnection(t: Target, opt: Options, w: World)
    requires !exists c :: Shakes(t, opt, w, c)
    requires w.versionValue(opt.tlsMin).Ok? && w.versionValue(opt.tlsMax).Ok?
    ensures var reverse, forward := w.resolver.lookupAddr(t.host), w.resolver.lookupIP4(t.host);
            var resolution :=
              if !opt.skipDNS && t.isIP && reverse.Err? then ["dns: reverse lookup failed: " + reverse.error]
              else if !opt.skipDNS && !t.isIP && forward.Err? then ["dns: A lookup failed: " + forward.error]
              else [];
            EvidenceOf(t, opt, w).warnings
            == resolution + (if t.scheme == "http" && !opt.forceTLS then [PlainHTTPText()] else [])
  {
    ConnectedShakes(t, opt, w);
    assert EvidenceOf(t, opt, w).warnings == WarningsOf(t, opt, w);
    hide EvidenceOf, PlainHTTPText, Shakes, Connecting;
  }

  lemma ConnectedShakes(t: Target, opt: Options, w: World)
    requires w.versionValue(opt.tlsMin).Ok? && w.versionValue(opt.tlsMax).Ok?
    ensures Connected(t, opt, w) ==> Shakes(t, opt, w, Connecting(t, opt, w).value)
  {
  }

  /** The errors of a run, word for word and in order. */
  lemma ErrorsInOrderOfRun(input: bytes, opt: Options, w: World, t: Target)
    requires Admitted(input, opt, w) == Ok(t)
    ensures var e := EvidenceOf(t, opt, w);
            ErrorsOfRun(t, opt, w)
            == (if e.tls.attempted && !e.tls.connected then ["tls: " + e.tls.error] else [])
               + (if e.http.attempted && !e.http.reachable then ["http: " + e.http.error] else [])
               + (if e.tls.attempted && !e.tls.connected && t.scheme == "https"
                  then ["HTTPS target did not complete a TLS handshake"] else [])
  {
    RunFields(t, opt, w);
    TLSDecided(t, opt, w);
    HTTPFields(t, opt, w);
    hide EvidenceOf, TLSOf, HTTPOf, Admitted, TargetOf, Fetched, RequestOf, Connecting, VerifyName;
  }

  lemma HTTPFields(t: Target, opt: Options, w: World)
    ensures var http, answer := EvidenceOf(t, opt, w).http, Fetched(w.web, RequestOf(t, opt));
            && (http.attempted <==> AsksHTTP(t, opt, w))
            && (http.attempted ==> (http.reachable <==> answer.Ok?))
            && (http.attempted && !http.reachable ==> answer == Err(http.error))
  {
    hide TLSOf, DNSOf, WarningsOf, VerificationOfRun, CertificatesInfo, Fetched, RequestOf, Connecting;
  }

  // ----- The gate -----

  /** A target is invalid exactly when a handshake is due and none completes that
      presents certificates which verify for the name. */
  lemma InvalidExactly(input: bytes, opt: Options, w: World, t: Target)
    requires Admitted(input, opt, w) == Ok(t)
    ensures var name := VerifyName(t, opt);
            Invalid(EvidenceOf(t, opt, w)) <==>
              && (t.scheme == "https" || opt.forceTLS)
              && forall c :: Shakes(t, opt, w, c) ==>
                   c.peers == [] || w.x509.verify(c.peers, if name == [] then None else Some(name)) != None
  {
    HandshakeDecides(input, opt, w, t);
    hide Admitted, EvidenceOf, VerifyName, Shakes, VerificationOf, Connected, Peers;
    forall c | Shakes(t, opt, w, c)
      ensures var name := VerifyName(t, opt);
              EvidenceOf(t, opt, w).verification.verified <==>
                c.peers != [] && w.x509.verify(c.peers, if name == [] then None else Some(name)) == None
    {
      VerifiedOfRun(t, opt, w, c);
    }
  }

  lemma VerifiedOfRun(t: Target, opt: Options, w: World, c: Connection)
    requires Shakes(t, opt, w, c)
    ensures var name := VerifyName(t, opt);
            EvidenceOf(t, opt, w).verification.verified <==>
              c.peers != [] && w.x509.verify(c.peers, if name == [] then None else Some(name)) == None
  {
    ConnectionCollected(t, opt, w, c);
    if c.peers != [] {
      FlagsAnswer(w.x509, c.peers, t, opt);
    } else {
      NothingVerified(w.x509, t, opt);
    }
    hide EvidenceOf, VerificationOf, VerifyName, Shakes;
  }

  lemma NothingVerified(x: X509, t: Target, opt: Options)
    ensures !VerificationOf(x, [], t, opt).verified
  {
    hide VerifyName;
  }
}
