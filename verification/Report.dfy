/** The records of internal/checker/types.go, as far as the checks and the
    grading read them. Everything is a value except the report itself. */
module Report {
  import opened Bytes
  import opened DnsMessage

  datatype Options = Options(
    port: int,
    serverName: bytes,
    verifyName: bytes,
    tlsMin: string,
    tlsMax: string,
    caFile: string,
    caBundlePEM: bytes,
    noHostname: bool,
    skipTLSProbe: bool,
    skipDNS: bool,
    skipHTTP: bool,
    skipCiphers: bool,
    forceTLS: bool)

  const DEFAULT_OPTIONS := Options(0, [], [], "", "", "", [], false, false, false, false, false, false)

  datatype Target = Target(input: bytes, scheme: string, host: bytes, port: int, path: bytes,
                           address: bytes, isIP: bool)

  datatype TargetInfo = TargetInfo(target: Target, serverName: bytes, verifyName: bytes)

  datatype TLSVersionSupport = TLSVersionSupport(version: string, supported: bool, cipherSuite: string, error: string)

  datatype Strength = Modern | Legacy | Weak

  datatype TLSCipherSupport = TLSCipherSupport(
    version: string,
    id: u16,
    name: string,
    supported: bool,
    insecure: bool,
    strength: Strength,
    forwardSecrecy: bool,
    aead: bool,
    cbc: bool,
    rc4: bool,
    tripleDES: bool,
    error: string)

  datatype TLSInfo = TLSInfo(
    attempted: bool,
    connected: bool,
    sni: bytes,
    compression: bool,
    ocspResponseBytes: nat,
    sctCount: nat,
    peerCertificateCount: nat,
    supportedVersions: seq<TLSVersionSupport>,
    supportedCiphers: seq<TLSCipherSupport>,
    error: string)

  datatype Severity = Critical | High | Medium | Low | Info

  /** A finding's or header check's status string; `Other` is any string the program does not use itself. */
  datatype Status = Pass | Warn | Fail | Note | NotTested | Other(text: string)

  datatype HTTPHeaderCheck = HTTPHeaderCheck(name: string, status: Status, description: string)

  datatype HTTPInfo = HTTPInfo(
    attempted: bool,
    reachable: bool,
    plaintext: bool,
    url: bytes,
    statusCode: int,
    securityHeaders: seq<HTTPHeaderCheck>,
    error: string)

  datatype DNSInfo = DNSInfo(
    attempted: bool,
    hostname: bytes,
    cname: bytes,
    a: seq<bytes>,
    aaaa: seq<bytes>,
    ptr: seq<bytes>,
    caaHost: bytes,
    caa: seq<CAARecord>,
    error: string)

  datatype VerificationInfo = VerificationInfo(
    checked: bool,
    verified: bool,
    chainVerified: bool,
    hostnameChecked: bool,
    hostnameVerified: bool,
    rootTrusted: bool,
    chainComplete: bool,
    expired: bool,
    notYetValid: bool,
    selfSignedLeaf: bool,
    usesCustomCA: bool,
    verifyName: bytes,
    errors: seq<string>)

  datatype CertificateInfo = CertificateInfo(
    daysRemaining: int,
    publicKeyAlgorithm: string,
    publicKeySize: int,
    signatureAlgorithm: string,
    ocspServers: seq<string>,
    crlDistributionPoints: seq<string>,
    embeddedSCTCount: nat)

  datatype FindingID =
    | PlainHTTP | TLSHandshake | TLSCompression
    | CertificateTrust | CertificateExpired | CertificateNotYetValid | SelfSignedLeaf | HostnameMismatch
    | ExpiresSoon | WeakSignature | WeakKey | RevocationInfo | CertificateTransparency
    | ChainInstallation
    | TLS10 | TLS11 | ModernTLSMissing | TLS13
    | CipherScan | WeakCiphers | LegacyCiphers | ForwardSecrecy
    | HTTPHeader(name: string)
    | CAAMissing | CAAPresent | DNSAddressMissing
    | Beast | Robot | Poodle | Heartbleed | Ticketbleed

  /** `detail` is the part of the description that depends on the evidence. */
  datatype SecurityFinding = SecurityFinding(id: FindingID, severity: Severity, status: Status, detail: string)

  datatype Grade = Ungraded | APlus | A | B | C | D | F

  datatype Summary = NoSummary | FoundFailures | FoundWarnings | NoMajorIssues | Completed

  datatype SecurityInfo = SecurityInfo(localGrade: Grade, score: int, summary: Summary, findings: seq<SecurityFinding>)

  const NO_SECURITY := SecurityInfo(Ungraded, 0, NoSummary, [])
  const NO_TLS := TLSInfo(false, false, [], false, 0, 0, 0, [], [], "")
  const NO_HTTP := HTTPInfo(false, false, false, [], 0, [], "")
  const NO_DNS := DNSInfo(false, [], [], [], [], [], [], [], "")
  const NO_VERIFICATION :=
    VerificationInfo(false, false, false, false, false, false, false, false, false, false, false, [], [])

  /** What a report holds when it is analyzed. */
  datatype Evidence = Evidence(
    target: TargetInfo,
    protocol: string,
    tls: TLSInfo,
    http: HTTPInfo,
    dns: DNSInfo,
    verification: VerificationInfo,
    certificates: seq<CertificateInfo>,
    warnings: seq<string>)

  /** The report that a check fills in step by step. */
  class Result {
    var target: TargetInfo
    var protocol: string
    var tls: TLSInfo
    var http: HTTPInfo
    var dns: DNSInfo
    var verification: VerificationInfo
    var certificates: seq<CertificateInfo>
    var security: SecurityInfo
    var warnings: seq<string>
    var errors: seq<string>

    constructor (info: TargetInfo)
      ensures Snapshot() == Evidence(info, "", NO_TLS, NO_HTTP, NO_DNS, NO_VERIFICATION, [], [])
      ensures security == NO_SECURITY && errors == []
    {
      target, protocol := info, "";
      tls, http, dns := NO_TLS, NO_HTTP, NO_DNS;
      verification, certificates := NO_VERIFICATION, [];
      security := NO_SECURITY;
      warnings, errors := [], [];
    }

    function Snapshot(): Evidence
      reads this
    {
      Evidence(target, protocol, tls, http, dns, verification, certificates, warnings)
    }
  }
}
