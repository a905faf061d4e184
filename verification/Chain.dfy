/** Verification bookkeeping and chain warnings (internal/checker/verify.go),
    with path building and signature checks as oracles. */
module Chain {
  import opened Bytes
  import opened Report
  import opened Text

  /** A certificate as the server sent it: its name in warnings, its validity
      period, and what the report shows of it. */
  datatype Cert = Cert(shown: string, notBefore: int, notAfter: int, info: CertificateInfo)

  /** The answers of crypto/x509 and of the root stores; `Some` is an error. */
  datatype X509 = X509(
    now: int,
    checkSignatureFrom: (Cert, Cert) -> Option<string>,
    verify: (seq<Cert>, Option<bytes>) -> Option<string>,
    verifyHostname: (Cert, bytes) -> Option<string>,
    systemRootsMissing: bool,
    customRoots: (string, bytes) -> Option<string>)

  // The warning texts, broken where the analysis of their contents needs it.
  function NoSystemRootsText(): string {
    Join(["system root store ", "could not be loaded; ", "only custom ", "CA", " certificates will be ",
          "used if provided"], "")
  }

  function HostnameDisabledText(): string {
    Join(["hostname verification ", "was explicitly disabled"], "")
  }

  function LeafOnlyText(): string {
    "the server sent only the leaf certificate; an " + ("intermediate" + " certificate may be missing")
  }

  function RootSentText(i: nat): string {
    "server-sent certificate " + Decimal(i)
    + (" appears to be a root/self-signed certificate; servers normally send leaf plus "
       + ("intermediate" + "s, not the root"))
  }

  function ChainOrderText(i: nat, cert: Cert, next: Cert, reason: string): string {
    "server-sent " + ("chain order" + ("/signature issue between certificate "
    + (Decimal(i) + " (" + cert.shown + ") and " + Decimal(i + 1) + " (" + next.shown + "): " + reason)))
  }

  /** Which certificates a chain warning names: by index, and with their labels and the reason. */
  lemma WarningsName(i: nat, cert: Cert, next: Cert, reason: string)
    ensures "server-sent certificate " + Decimal(i) <= RootSentText(i)
    ensures var both := Decimal(i) + " (" + cert.shown + ") and " + Decimal(i + 1) + " (" + next.shown + ")";
            var named := both + ": " + reason;
            var text := ChainOrderText(i, cert, next, reason);
            |named| <= |text| && text[|text| - |named|..] == named
  {
    hide Decimal;
  }

  predicate IsSelfSigned(x: X509, cert: Cert) {
    x.checkSignatureFrom(cert, cert).None?
  }

  // ----- Chain warnings -----

  predicate ExtraRoot(x: X509, certs: seq<Cert>, k: int)
    requires 0 <= k < |certs|
  {
    k > 0 && IsSelfSigned(x, certs[k])
  }

  predicate BrokenLink(x: X509, certs: seq<Cert>, k: int)
    requires 0 <= k < |certs|
  {
    k < |certs| - 1 && x.checkSignatureFrom(certs[k], certs[k + 1]).Some?
  }

  /** What is said about the certificate at index `i`, by itself and with the next one. */
  function RootWarningAt(x: X509, certs: seq<Cert>, i: nat): seq<string>
    requires i < |certs|
  {
    if ExtraRoot(x, certs, i) then [RootSentText(i)] else []
  }

  function LinkWarningAt(x: X509, certs: seq<Cert>, i: nat): seq<string>
    requires i < |certs|
  {
    if BrokenLink(x, certs, i)
    then [ChainOrderText(i, certs[i], certs[i + 1], x.checkSignatureFrom(certs[i], certs[i + 1]).value)]
    else []
  }

  function WarningsFrom(x: X509, certs: seq<Cert>, i: nat): seq<string>
    requires i <= |certs|
    decreases |certs| - i
  {
    if i == |certs| then [] else RootWarningAt(x, certs, i) + LinkWarningAt(x, certs, i) + WarningsFrom(x, certs, i + 1)
  }

  predicate LeafOnly(x: X509, certs: seq<Cert>, chainFailed: bool) {
    chainFailed && |certs| == 1 && !IsSelfSigned(x, certs[0])
  }

  function ChainWarningsOf(x: X509, certs: seq<Cert>, chainFailed: bool): seq<string> {
    (if LeafOnly(x, certs, chainFailed) then [LeafOnlyText()] else []) + WarningsFrom(x, certs, 0)
  }

  method ChainWarnings(x: X509, certs: seq<Cert>, chainErr: Option<string>) returns (warnings: seq<string>)
    ensures warnings == ChainWarningsOf(x, certs, chainErr.Some?)
  {
    hide LeafOnlyText, RootSentText, ChainOrderText;
    warnings := [];
    if |certs| == 0 {
      return;
    }
    var leaf := certs[0];
    if chainErr.Some? && |certs| == 1 && !IsSelfSigned(x, leaf) {
      warnings := warnings + [LeafOnlyText()];
    }
    ghost var all := ChainWarningsOf(x, certs, chainErr.Some?);
    assert all == warnings + WarningsFrom(x, certs, 0);
    hide ChainWarningsOf, WarningsFrom, IsSelfSigned, RootWarningAt, LinkWarningAt;
    for i := 0 to |certs|
      invariant all == warnings + WarningsFrom(x, certs, i)
    {
      NextWarnings(x, certs, i, warnings);
      if i > 0 && IsSelfSigned(x, certs[i]) {
        warnings := warnings + [RootSentText(i)];
      }
      if i < |certs| - 1 {
        var err := x.checkSignatureFrom(certs[i], certs[i + 1]);
        if err.Some? {
          warnings := warnings + [ChainOrderText(i, certs[i], certs[i + 1], err.value)];
        }
      }
    }
    NoMoreWarnings(x, certs, warnings);
  }

  /** One round of the loop: at most two warnings join those before. */
  lemma NextWarnings(x: X509, certs: seq<Cert>, i: nat, before: seq<string>)
    requires i < |certs|
    ensures var root := if ExtraRoot(x, certs, i) then before + [RootSentText(i)] else before;
            var both := if !BrokenLink(x, certs, i) then root else
              root + [ChainOrderText(i, certs[i], certs[i + 1], x.checkSignatureFrom(certs[i], certs[i + 1]).value)];
            before + WarningsFrom(x, certs, i) == both + WarningsFrom(x, certs, i + 1)
  {
    hide RootSentText, ChainOrderText, ExtraRoot, BrokenLink;
  }

  lemma NoMoreWarnings(x: X509, certs: seq<Cert>, before: seq<string>)
    ensures before + WarningsFrom(x, certs, |certs|) == before
  {
  }

  // ----- Counting defects -----

  ghost function ExtraRootsFrom(x: X509, certs: seq<Cert>, i: nat): set<int> {
    set k: int | i <= k < |certs| && ExtraRoot(x, certs, k)
  }

  ghost function BrokenLinksFrom(x: X509, certs: seq<Cert>, i: nat): set<int> {
    set k: int | i <= k < |certs| && BrokenLink(x, certs, k)
  }

  /** The defects of a presented chain, in signature checks alone: a lone leaf of a
      failed chain that its own key did not sign, certificates after the leaf that
      their own key signed, and certificates that the next one's key did not sign. */
  ghost function Defects(x: X509, certs: seq<Cert>, chainFailed: bool): nat {
    (if chainFailed && |certs| == 1 && x.checkSignatureFrom(certs[0], certs[0]).Some? then 1 else 0)
    + |set k: int | 0 < k < |certs| && x.checkSignatureFrom(certs[k], certs[k]).None?|
    + |set k: int | 0 <= k < |certs| - 1 && !SignedByNext(x, certs, k)|
  }

  predicate SignedByNext(x: X509, certs: seq<Cert>, k: int)
    requires 0 <= k < |certs| - 1
  {
    x.checkSignatureFrom(certs[k], certs[k + 1]).None?
  }

  /** One warning per defect. */
  lemma WarningsCountDefects(x: X509, certs: seq<Cert>, chainFailed: bool)
    ensures |ChainWarningsOf(x, certs, chainFailed)| == Defects(x, certs, chainFailed)
  {
    WarningsFromCount(x, certs, 0);
    DefectSets(x, certs);
    hide WarningsFrom, ExtraRootsFrom, BrokenLinksFrom, SignedByNext;
  }

  lemma DefectSets(x: X509, certs: seq<Cert>)
    ensures ExtraRootsFrom(x, certs, 0)
         == set k: int | 0 < k < |certs| && x.checkSignatureFrom(certs[k], certs[k]).None?
    ensures BrokenLinksFrom(x, certs, 0) == set k: int | 0 <= k < |certs| - 1 && !SignedByNext(x, certs, k)
  {
  }

  lemma {:induction false} WarningsFromCount(x: X509, certs: seq<Cert>, i: nat)
    requires i <= |certs|
    ensures |WarningsFrom(x, certs, i)| == |ExtraRootsFrom(x, certs, i)| + |BrokenLinksFrom(x, certs, i)|
    decreases |certs| - i
  {
    hide ExtraRootsFrom, BrokenLinksFrom, RootSentText, ChainOrderText;
    if i == |certs| {
      NoneLeft(x, certs);
    } else {
      WarningsFromCount(x, certs, i + 1);
      NextRoot(x, certs, i);
      NextLink(x, certs, i);
    }
  }

  lemma NoneLeft(x: X509, certs: seq<Cert>)
    ensures ExtraRootsFrom(x, certs, |certs|) == {} && BrokenLinksFrom(x, certs, |certs|) == {}
  {
  }

  lemma NextRoot(x: X509, certs: seq<Cert>, i: nat)
    requires i < |certs|
    ensures |ExtraRootsFrom(x, certs, i)| == |ExtraRootsFrom(x, certs, i + 1)| + if ExtraRoot(x, certs, i) then 1 else 0
  {
    hide ExtraRoot;
    assert ExtraRootsFrom(x, certs, i) == ExtraRootsFrom(x, certs, i + 1) + if ExtraRoot(x, certs, i) then {i} else {};
  }

  lemma NextLink(x: X509, certs: seq<Cert>, i: nat)
    requires i < |certs|
    ensures var more := if BrokenLink(x, certs, i) then 1 else 0;
            |BrokenLinksFrom(x, certs, i)| == |BrokenLinksFrom(x, certs, i + 1)| + more
  {
    hide BrokenLink;
    var here := if BrokenLink(x, certs, i) then {i} else {};
    assert BrokenLinksFrom(x, certs, i) == BrokenLinksFrom(x, certs, i + 1) + here;
  }

  /** What the analysis looks for in a warning. */
  predicate MentionsChain(warning: string) {
    Contains(ToLower(warning), "intermediate") || Contains(ToLower(warning), "chain order")
  }

  /** A warning whose text is `front`, `word`, `rest` mentions what `word` is. */
  lemma MentionedInside(front: string, word: string, rest: string)
    requires word == "intermediate" || word == "chain order"
    ensures MentionsChain(front + (word + rest))
  {
    assert ToLower(word) == word;
    assert OccursAt(word, word, 0);
    ToLowerConcat(word, rest);
    ContainsInPrefix(word, ToLower(rest), word);
    ToLowerConcat(front, word + rest);
    ContainsInSuffix(ToLower(front), ToLower(word + rest), word);
  }

  lemma LeafOnlyMentionsChain()
    ensures MentionsChain(LeafOnlyText())
  {
    MentionedInside("the server sent only the leaf certificate; an ", "intermediate", " certificate may be missing");
  }

  lemma RootSentMentionsChain(i: nat)
    ensures MentionsChain(RootSentText(i))
  {
    var middle := " appears to be a root/self-signed certificate; servers normally send leaf plus ";
    MentionedInside("server-sent certificate " + Decimal(i) + middle, "intermediate", "s, not the root");
    Regroup("server-sent certificate " + Decimal(i), middle, "intermediate" + "s, not the root");
  }

  lemma Regroup(a: string, b: string, c: string)
    ensures a + (b + c) == a + b + c
  {
  }

  lemma ChainOrderMentionsChain(i: nat, cert: Cert, next: Cert, reason: string)
    ensures MentionsChain(ChainOrderText(i, cert, next, reason))
  {
    var rest := Decimal(i) + " (" + cert.shown + ") and " + Decimal(i + 1) + " (" + next.shown + "): " + reason;
    MentionedInside("server-sent ", "chain order", "/signature issue between certificate " + rest);
  }

  /** A text whose lower case lacks "rm" and "ha", so that neither word can occur in it. */
  ghost predicate Quiet(s: string) {
    LacksPair(ToLower(s), 'r', 'm') && LacksPair(ToLower(s), 'h', 'a')
  }

  /** A text made of quiet pieces is quiet. */
  lemma {:induction false} QuietPieces(pieces: seq<string>)
    requires forall p | p in pieces :: Quiet(p)
    ensures Quiet(Join(pieces, ""))
  {
    if |pieces| > 1 {
      QuietPieces(pieces[1..]);
      var rest := Join(pieces[1..], "");
      assert Join(pieces, "") == pieces[0] + rest && pieces[0] in pieces;
      ToLowerConcat(pieces[0], rest);
    }
  }

  lemma QuietMentionsNoChain(s: string)
    requires Quiet(s)
    ensures !MentionsChain(s)
  {
    if Contains(ToLower(s), "intermediate") {
      ContainsHasPairs(ToLower(s), "intermediate", 4);
    } else if Contains(ToLower(s), "chain order") {
      ContainsHasPairs(ToLower(s), "chain order", 1);
    }
  }

  lemma QuietHostname()
    ensures Quiet("hostname verification ")
  {
    var s := "hostname verification ";
    assert ToLower(s) == s;
    hide ToLower;
  }

  lemma QuietDisabled()
    ensures Quiet("was explicitly disabled")
  {
    var s := "was explicitly disabled";
    assert ToLower(s) == s;
    hide ToLower;
  }

  lemma QuietStore()
    ensures Quiet("system root store ")
  {
    var s := "system root store ";
    assert ToLower(s) == s;
    hide ToLower;
  }

  lemma QuietLoaded()
    ensures Quiet("could not be loaded; ")
  {
    var s := "could not be loaded; ";
    assert ToLower(s) == s;
    hide ToLower;
  }

  lemma QuietCustom()
    ensures Quiet("only custom ")
  {
    var s := "only custom ";
    assert ToLower(s) == s;
    hide ToLower;
  }

  lemma QuietCA()
    ensures Quiet("CA")
  {
  }

  lemma QuietCertificates()
    ensures Quiet(" certificates will be ")
  {
    var s := " certificates will be ";
    assert ToLower(s) == s;
    hide ToLower;
  }

  lemma QuietProvided()
    ensures Quiet("used if provided")
  {
    var s := "used if provided";
    assert ToLower(s) == s;
    hide ToLower;
  }

  lemma OthersMentionNoChain()
    ensures !MentionsChain(HostnameDisabledText()) && !MentionsChain(NoSystemRootsText())
  {
    hide Quiet, MentionsChain, Join;
    QuietHostname();
    QuietDisabled();
    QuietStore();
    QuietLoaded();
    QuietCustom();
    QuietCA();
    QuietCertificates();
    QuietProvided();
    QuietPieces(["hostname verification ", "was explicitly disabled"]);
    QuietMentionsNoChain(HostnameDisabledText());
    QuietPieces(["system root store ", "could not be loaded; ", "only custom ", "CA", " certificates will be ",
                 "used if provided"]);
    QuietMentionsNoChain(NoSystemRootsText());
  }

  lemma {:induction false} WarningsFromMentionChain(x: X509, certs: seq<Cert>, i: nat)
    requires i <= |certs|
    ensures forall w | w in WarningsFrom(x, certs, i) :: MentionsChain(w)
    decreases |certs| - i
  {
    if i < |certs| {
      WarningsFromMentionChain(x, certs, i + 1);
      RootSentMentionsChain(i);
      if i < |certs| - 1 && x.checkSignatureFrom(certs[i], certs[i + 1]).Some? {
        ChainOrderMentionsChain(i, certs[i], certs[i + 1], x.checkSignatureFrom(certs[i], certs[i + 1]).value);
      }
    }
  }

  // ----- Verification -----

  /** Warnings and error of `loadRoots`. */
  function RootWarnings(x: X509): seq<string> {
    if x.systemRootsMissing then [NoSystemRootsText()] else []
  }

  /** `verifyName` */
  function VerifyName(target: Target, opt: Options): bytes {
    if opt.noHostname then []
    else if opt.verifyName != [] then opt.verifyName
    else if opt.serverName != [] then opt.serverName
    else target.host
  }

  /** What an error entry is about: the word before its reason. */
  datatype ErrorSubject = AboutRoots | AboutChain | AboutHostname | AboutVerification

  function ErrorText(subject: ErrorSubject, reason: string): string {
    match subject
    case AboutRoots => "roots: " + reason
    case AboutChain => "chain: " + reason
    case AboutHostname => "hostname: " + reason
    case AboutVerification => "verification: " + reason
  }

  function NoPeersText(): string {
    "no peer certificates were presented"
  }

  /** `containsError` */
  predicate ContainsError(existing: seq<string>, needle: string) {
    exists e | e in existing ::
      || e == needle
      || e == ErrorText(AboutVerification, needle)
      || e == ErrorText(AboutChain, needle)
      || e == ErrorText(AboutHostname, needle)
  }

  /** Which errors a verification reports, in order: unreadable roots, a failed
      chain, a failed host name, and the full check when its reason is new. */
  function ErrorsOf(roots: Option<string>, chain: Option<string>, host: Option<string>, full: Option<string>)
    : seq<string>
  {
    var before := EarlierErrors(roots, chain, host);
    if full.Some? && !ContainsError(before, full.value) then before + [ErrorText(AboutVerification, full.value)]
    else before
  }

  function EarlierErrors(roots: Option<string>, chain: Option<string>, host: Option<string>): seq<string> {
    WithError(WithError(WithError([], AboutRoots, roots), AboutChain, chain), AboutHostname, host)
  }

  function WithError(errors: seq<string>, subject: ErrorSubject, err: Option<string>): seq<string> {
    if err.Some? then errors + [ErrorText(subject, err.value)] else errors
  }

  /** The name the full check is given. */
  function NameToCheck(name: bytes): Option<bytes> {
    if name != [] then Some(name) else None
  }

  function HostError(x: X509, leaf: Cert, name: bytes): Option<string> {
    if name != [] then x.verifyHostname(leaf, name) else None
  }

  /** What verification finds for a presented chain. */
  function VerificationOf(x: X509, certs: seq<Cert>, target: Target, opt: Options): VerificationInfo {
    var name := VerifyName(target, opt);
    var custom := opt.caFile != "" || opt.caBundlePEM != [];
    if certs == [] then
      NO_VERIFICATION.(usesCustomCA := custom, verifyName := name, hostnameChecked := !opt.noHostname,
                       errors := [NoPeersText()])
    else
      var chain := x.verify(certs, None);
      var host := HostError(x, certs[0], name);
      var full := x.verify(certs, NameToCheck(name));
      VerificationInfo(
        checked := true,
        verified := full.None?,
        chainVerified := chain.None?,
        hostnameChecked := name != [],
        hostnameVerified := host.None?,
        rootTrusted := chain.None?,
        chainComplete := chain.None?,
        expired := x.now > certs[0].notAfter,
        notYetValid := x.now < certs[0].notBefore,
        selfSignedLeaf := IsSelfSigned(x, certs[0]),
        usesCustomCA := custom,
        verifyName := name,
        errors := ErrorsOf(x.customRoots(opt.caFile, opt.caBundlePEM), chain, host, full))
  }

  function VerifyWarningsOf(x: X509, certs: seq<Cert>, target: Target, opt: Options): seq<string> {
    if certs == [] then []
    else OtherWarnings(x, target, opt) + ChainWarningsOf(x, certs, x.verify(certs, None).Some?)
  }

  function OtherWarnings(x: X509, target: Target, opt: Options): seq<string> {
    RootWarnings(x) + HostnameWarning(target, opt)
  }

  function HostnameWarning(target: Target, opt: Options): seq<string> {
    if VerifyName(target, opt) == [] && opt.noHostname then [HostnameDisabledText()] else []
  }

  method VerifyPeerCertificates(x: X509, certs: seq<Cert>, target: Target, opt: Options)
    returns (info: VerificationInfo, warnings: seq<string>)
    ensures info == VerificationOf(x, certs, target, opt)
    ensures warnings == VerifyWarningsOf(x, certs, target, opt)
  {
    hide ErrorText, NoPeersText, RootWarnings, HostnameWarning, ContainsError, ChainWarningsOf, VerifyName,
      IsSelfSigned;
    hide WithError, HostError, NameToCheck;
    info := NO_VERIFICATION.(
      checked := |certs| > 0,
      usesCustomCA := opt.caFile != "" || |opt.caBundlePEM| > 0,
      verifyName := VerifyName(target, opt),
      hostnameChecked := !opt.noHostname);
    warnings := [];
    var errors: seq<string> := [];
    if |certs| == 0 {
      errors := errors + [NoPeersText()];
      return info.(errors := errors), warnings;
    }
    var leaf := certs[0];
    info := info.(
      expired := x.now > leaf.notAfter,
      notYetValid := x.now < leaf.notBefore,
      selfSignedLeaf := IsSelfSigned(x, leaf));

    warnings := warnings + RootWarnings(x);
    var rootErr := x.customRoots(opt.caFile, opt.caBundlePEM);
    errors := WithError(errors, AboutRoots, rootErr);

    var chainErr := x.verify(certs, None);
    info := info.(chainVerified := chainErr.None?, rootTrusted := chainErr.None?, chainComplete := chainErr.None?);
    errors := WithError(errors, AboutChain, chainErr);

    info := info.(hostnameChecked := info.verifyName != []);
    var hostErr := HostError(x, leaf, info.verifyName);
    info := info.(hostnameVerified := hostErr.None?);
    errors := WithError(errors, AboutHostname, hostErr);
    warnings := warnings + HostnameWarning(target, opt);

    var fullErr := x.verify(certs, NameToCheck(info.verifyName));
    info := info.(verified := fullErr.None?);
    if fullErr.Some? && !ContainsError(errors, fullErr.value) {
      errors := errors + [ErrorText(AboutVerification, fullErr.value)];
    }
    info := info.(errors := errors);
    var chain := ChainWarnings(x, certs, chainErr);
    warnings := warnings + chain;
  }

  /** The name to verify: none when that is disabled, else the first one given. */
  lemma NameToVerify(target: Target, opt: Options)
    ensures var name := VerifyName(target, opt);
            && (opt.noHostname ==> name == [])
            && (!opt.noHostname && opt.verifyName != [] ==> name == opt.verifyName)
            && (!opt.noHostname && opt.verifyName == [] && opt.serverName != [] ==> name == opt.serverName)
            && (!opt.noHostname && opt.verifyName == [] && opt.serverName == [] ==> name == target.host)
  {
  }

  /** What each flag of a verification answers, for a chain that was presented. */
  lemma FlagsAnswer(x: X509, certs: seq<Cert>, target: Target, opt: Options)
    requires certs != []
    ensures var info, name := VerificationOf(x, certs, target, opt), VerifyName(target, opt);
            && info.checked && info.verifyName == name
            && (info.chainVerified <==> x.verify(certs, None) == None)
            && (info.verified <==> x.verify(certs, if name == [] then None else Some(name)) == None)
            && (info.rootTrusted <==> info.chainVerified) && (info.chainComplete <==> info.chainVerified)
            && (info.hostnameChecked <==> name != [])
            && (info.hostnameVerified <==> (name != [] ==> x.verifyHostname(certs[0], name) == None))
            && (info.expired <==> certs[0].notAfter < x.now)
            && (info.notYetValid <==> x.now < certs[0].notBefore)
            && (info.selfSignedLeaf <==> x.checkSignatureFrom(certs[0], certs[0]) == None)
            && (info.usesCustomCA <==> opt.caFile != "" || opt.caBundlePEM != [])
  {
    hide VerifyName, ErrorsOf;
  }

  /** A reason not given yet, by itself or under any of the three words. */
  ghost predicate IsNews(earlier: seq<string>, reason: string) {
    && reason !in earlier && "verification: " + reason !in earlier
    && "chain: " + reason !in earlier && "hostname: " + reason !in earlier
  }

  /** The errors of a verification, word for word: what failed, in order, and the
      full check's reason when it is news. */
  lemma ErrorsInOrder(roots: Option<string>, chain: Option<string>, host: Option<string>, full: Option<string>)
    ensures var earlier := (if roots.Some? then ["roots: " + roots.value] else [])
                           + (if chain.Some? then ["chain: " + chain.value] else [])
                           + (if host.Some? then ["hostname: " + host.value] else []);
            ErrorsOf(roots, chain, host, full)
            == earlier + (if full.Some? && IsNews(earlier, full.value) then ["verification: " + full.value] else [])
  {
    var before := EarlierErrors(roots, chain, host);
    assert before == (if roots.Some? then ["roots: " + roots.value] else [])
                     + (if chain.Some? then ["chain: " + chain.value] else [])
                     + (if host.Some? then ["hostname: " + host.value] else []);
    if full.Some? {
      NewsExactly(before, full.value);
    }
    hide EarlierErrors, ContainsError, IsNews;
  }

  lemma NewsExactly(earlier: seq<string>, reason: string)
    ensures ContainsError(earlier, reason) <==> !IsNews(earlier, reason)
  {
  }

  /** Which reasons a verification puts into its errors. */
  lemma ErrorsOfVerification(x: X509, certs: seq<Cert>, target: Target, opt: Options)
    requires certs != []
    ensures var name := VerifyName(target, opt);
            VerificationOf(x, certs, target, opt).errors
            == ErrorsOf(x.customRoots(opt.caFile, opt.caBundlePEM),
                        x.verify(certs, None),
                        if name != [] then x.verifyHostname(certs[0], name) else None,
                        x.verify(certs, if name != [] then Some(name) else None))
  {
    hide VerifyName, ErrorsOf;
  }

  /** A presented chain is warned about once for each defect, once for a missing
      system store and once for a disabled host name check. */
  lemma WarningsAreCounted(x: X509, certs: seq<Cert>, target: Target, opt: Options)
    requires certs != []
    ensures |VerifyWarningsOf(x, certs, target, opt)|
         == Defects(x, certs, x.verify(certs, None).Some?)
            + (if x.systemRootsMissing then 1 else 0) + (if opt.noHostname then 1 else 0)
  {
    WarningsCountDefects(x, certs, x.verify(certs, None).Some?);
    hide Defects, ChainWarningsOf, NoSystemRootsText, HostnameDisabledText;
  }

  /** A failed verification always says why: some recorded error holds the full check's reason. */
  lemma FailureHasReason(x: X509, certs: seq<Cert>, target: Target, opt: Options)
    requires certs != []
    ensures var info := VerificationOf(x, certs, target, opt);
            var full := x.verify(certs, NameToCheck(VerifyName(target, opt)));
            !info.verified <==> full.Some? && ContainsError(info.errors, full.value)
  {
    var name := VerifyName(target, opt);
    var full := x.verify(certs, NameToCheck(name));
    if full.Some? {
      var roots, chain := x.customRoots(opt.caFile, opt.caBundlePEM), x.verify(certs, None);
      ErrorsHoldReason(roots, chain, HostError(x, certs[0], name), full);
    }
  }

  lemma ErrorsHoldReason(roots: Option<string>, chain: Option<string>, host: Option<string>, full: Option<string>)
    requires full.Some?
    ensures ContainsError(ErrorsOf(roots, chain, host, full), full.value)
  {
    hide ErrorText;
    var before, all := EarlierErrors(roots, chain, host), ErrorsOf(roots, chain, host, full);
    if !ContainsError(before, full.value) {
      assert all[|all| - 1] == ErrorText(AboutVerification, full.value);
      assert ErrorText(AboutVerification, full.value) in all;
    }
  }

  /** Of all a connected run warns about, the chain defects are exactly the
      warnings that the analysis will take for chain problems. */
  lemma WarningsMentionDefects(x: X509, certs: seq<Cert>, target: Target, opt: Options)
    requires certs != []
    ensures Mentions(VerifyWarningsOf(x, certs, target, opt)) == Defects(x, certs, x.verify(certs, None).Some?)
  {
    hide MentionsChain, HostnameDisabledText, NoSystemRootsText, LeafOnlyText;
    var chainFailed := x.verify(certs, None).Some?;
    var others := OtherWarnings(x, target, opt);
    var chain := ChainWarningsOf(x, certs, chainFailed);
    OthersMentionNoChain();
    LeafOnlyMentionsChain();
    WarningsFromMentionChain(x, certs, 0);
    WarningsCountDefects(x, certs, chainFailed);
    MentionsAll(chain);
    MentionsNone(others);
    MentionsConcat(others, chain);
  }

  /** The number of warnings that mention a chain problem. */
  function Mentions(warnings: seq<string>): nat {
    if warnings == [] then 0 else (if MentionsChain(warnings[0]) then 1 else 0) + Mentions(warnings[1..])
  }

  lemma {:induction false} MentionsAll(warnings: seq<string>)
    requires forall w | w in warnings :: MentionsChain(w)
    ensures Mentions(warnings) == |warnings|
  {
    if warnings != [] {
      assert warnings[0] in warnings;
      MentionsAll(warnings[1..]);
    }
  }

  lemma {:induction false} MentionsNone(warnings: seq<string>)
    requires forall w | w in warnings :: !MentionsChain(w)
    ensures Mentions(warnings) == 0
  {
    if warnings != [] {
      assert warnings[0] in warnings;
      MentionsNone(warnings[1..]);
    }
  }

  lemma {:induction false} MentionsConcat(a: seq<string>, b: seq<string>)
    ensures Mentions(a + b) == Mentions(a) + Mentions(b)
  {
    if a == [] {
      assert a + b == b;
    } else {
      assert (a + b)[1..] == a[1..] + b;
      MentionsConcat(a[1..], b);
    }
  }

}
