/** The TLS probes of internal/checker/tls.go, with the handshake as an oracle. */
module Ciphers {
  import opened Bytes
  import opened Report
  import opened Text

  datatype CipherSuite = CipherSuite(id: u16, name: string, supportedVersions: seq<u16>, insecure: bool)

  datatype Version = Version(name: string, value: u16)

  const TLS10_VERSION := Version("TLS 1.0", 0x0301)
  const TLS11_VERSION := Version("TLS 1.1", 0x0302)
  const TLS12_VERSION := Version("TLS 1.2", 0x0303)
  const TLS13_VERSION := Version("TLS 1.3", 0x0304)

  const CIPHER_VERSIONS := [TLS10_VERSION, TLS11_VERSION, TLS12_VERSION]
  const ALL_VERSIONS := [TLS10_VERSION, TLS11_VERSION, TLS12_VERSION, TLS13_VERSION]

  /** What one handshake comes to. Limited to a version: the name of the suite
      negotiated, or the reason it failed. Limited to a version and a suite:
      nothing to report, or the reason it failed. */
  datatype Handshakes = Handshakes(withVersion: u16 -> Outcome<string, string>, withSuite: (u16, u16) -> Option<string>)

  // ----- Versions -----

  function ProbedVersion(hs: Handshakes, v: Version): TLSVersionSupport {
    match hs.withVersion(v.value)
    case Ok(suite) => TLSVersionSupport(v.name, true, suite, "")
    case Err(reason) => TLSVersionSupport(v.name, false, "", reason)
  }

  method ProbeTLSVersions(hs: Handshakes) returns (out: seq<TLSVersionSupport>)
    ensures |out| == |ALL_VERSIONS| == 4
    ensures forall i | 0 <= i < |out| :: out[i] == ProbedVersion(hs, ALL_VERSIONS[i])
    ensures forall i | 0 <= i < 4 ::
      && out[i].version == ["TLS 1.0", "TLS 1.1", "TLS 1.2", "TLS 1.3"][i]
      && match hs.withVersion(0x0301 + i)
         case Ok(suite) => out[i].supported && out[i].cipherSuite == suite && out[i].error == ""
         case Err(reason) => !out[i].supported && out[i].cipherSuite == "" && out[i].error == reason
  {
    out := [];
    for i := 0 to |ALL_VERSIONS|
      invariant |out| == i && forall j | 0 <= j < i :: out[j] == ProbedVersion(hs, ALL_VERSIONS[j])
    {
      var version := ALL_VERSIONS[i];
      var suite := hs.withVersion(version.value);
      if suite.Err? {
        out := out + [TLSVersionSupport(version.name, false, "", suite.error)];
        continue;
      }
      out := out + [TLSVersionSupport(version.name, true, suite.value, "")];
    }
  }

  // ----- Classification -----

  /** `classifyCipher`, before the suite is probed. */
  function ClassifyCipher(version: string, suite: CipherSuite): TLSCipherSupport {
    var upper := ToUpper(suite.name);
    var rc4 := Contains(upper, "_RC4_");
    var tripleDES := Contains(upper, "_3DES_");
    var cbc := Contains(upper, "_CBC_");
    var aead := Contains(upper, "_GCM_") || Contains(upper, "CHACHA20") || Contains(upper, "_CCM_");
    var forwardSecrecy := Contains(upper, "_ECDHE_") || Contains(upper, "_DHE_");
    var strength :=
      if suite.insecure || rc4 || tripleDES then Weak
      else if Contains(version, "1.0") || Contains(version, "1.1") || cbc || !forwardSecrecy then Legacy
      else Modern;
    TLSCipherSupport(version, suite.id, suite.name, false, suite.insecure || rc4 || tripleDES, strength,
                     forwardSecrecy, aead, cbc, rc4, tripleDES, "")
  }

  method CipherSuiteSupportsVersion(suite: CipherSuite, version: u16) returns (r: bool)
    ensures r == (version in suite.supportedVersions)
  {
    for i := 0 to |suite.supportedVersions|
      invariant version !in suite.supportedVersions[..i]
    {
      if suite.supportedVersions[i] == version {
        return true;
      }
    }
    return false;
  }

  // ----- Inventory -----

  /** The suites that can run under version `v`, in order, each paired with it. */
  function SupportingPairs(v: Version, suites: seq<CipherSuite>): seq<(Version, CipherSuite)> {
    if suites == [] then []
    else (if v.value in suites[0].supportedVersions then [(v, suites[0])] else []) + SupportingPairs(v, suites[1..])
  }

  /** Every (version, suite) pair that the suite supports, versions first. */
  function Pairs(versions: seq<Version>, suites: seq<CipherSuite>): seq<(Version, CipherSuite)> {
    if versions == [] then [] else SupportingPairs(versions[0], suites) + Pairs(versions[1..], suites)
  }

  /** The entry that the probe of one pair leaves behind. */
  function Entry(hs: Handshakes, p: (Version, CipherSuite)): TLSCipherSupport {
    var entry := ClassifyCipher(p.0.name, p.1);
    match hs.withSuite(p.0.value, p.1.id)
    case None => entry.(supported := true)
    case Some(reason) => entry.(supported := false, error := reason)
  }

  /** One entry per pair, in order. */
  ghost predicate IsInventory(out: seq<TLSCipherSupport>, pairs: seq<(Version, CipherSuite)>, hs: Handshakes) {
    |out| == |pairs| && forall i | 0 <= i < |out| :: out[i] == Entry(hs, pairs[i])
  }

  method ProbeTLSCiphers(suites: seq<CipherSuite>, hs: Handshakes) returns (out: seq<TLSCipherSupport>)
    ensures IsInventory(out, Pairs(CIPHER_VERSIONS, suites), hs)
  {
    hide SupportingPairs, IsInventory;
    out := [];
    ghost var done: seq<(Version, CipherSuite)> := [];
    InventoryOfNothing(hs);
    for i := 0 to |CIPHER_VERSIONS|
      invariant IsInventory(out, done, hs)
      invariant Pairs(CIPHER_VERSIONS, suites) == done + Pairs(CIPHER_VERSIONS[i..], suites)
    {
      var version := CIPHER_VERSIONS[i];
      ghost var left := CIPHER_VERSIONS[i..];
      assert left[1..] == CIPHER_VERSIONS[i + 1..] && left[0] == version;
      var more := ProbeSuites(version, suites, hs);
      InventoryConcat(out, done, more, SupportingPairs(version, suites), hs);
      out, done := out + more, done + SupportingPairs(version, suites);
    }
    assert Pairs(CIPHER_VERSIONS[|CIPHER_VERSIONS|..], suites) == [] && done + [] == done;
  }

  /** The inner loop: the suites under one version. */
  method ProbeSuites(version: Version, suites: seq<CipherSuite>, hs: Handshakes) returns (out: seq<TLSCipherSupport>)
    ensures IsInventory(out, SupportingPairs(version, suites), hs)
  {
    hide ClassifyCipher;
    out := [];
    ghost var done: seq<(Version, CipherSuite)> := [];
    assert suites[0..] == suites;
    for k := 0 to |suites|
      invariant IsInventory(out, done, hs)
      invariant SupportingPairs(version, suites) == done + SupportingPairs(version, suites[k..])
    {
      var suite := suites[k];
      assert suites[k..][1..] == suites[k + 1..];
      var supports := CipherSuiteSupportsVersion(suite, version.value);
      if !supports {
        continue;
      }
      done := done + [(version, suite)];
      var entry := ClassifyCipher(version.name, suite);
      var reason := hs.withSuite(version.value, suite.id);
      if reason.Some? {
        entry := entry.(supported := false);
        entry := entry.(error := reason.value);
        out := out + [entry];
        continue;
      }
      entry := entry.(supported := true);
      out := out + [entry];
    }
    assert suites[|suites|..] == [];
  }

  lemma InventoryOfNothing(hs: Handshakes)
    ensures IsInventory([], [], hs)
  {
  }

  lemma InventoryConcat(a: seq<TLSCipherSupport>, p: seq<(Version, CipherSuite)>,
                        b: seq<TLSCipherSupport>, q: seq<(Version, CipherSuite)>, hs: Handshakes)
    requires IsInventory(a, p, hs) && IsInventory(b, q, hs)
    ensures IsInventory(a + b, p + q, hs)
  {
    hide Entry;
  }

  /** The pairs are exactly those of a listed version and a listed suite that supports it. */
  lemma {:induction false} PairsAreExact(versions: seq<Version>, suites: seq<CipherSuite>, v: Version, s: CipherSuite)
    ensures (v, s) in Pairs(versions, suites) <==> v in versions && s in suites && v.value in s.supportedVersions
  {
    if versions != [] {
      PairsAreExact(versions[1..], suites, v, s);
      SupportingPairsAreExact(versions[0], suites, v, s);
      assert versions == [versions[0]] + versions[1..];
    }
  }

  lemma {:induction false} SupportingPairsAreExact(version: Version, suites: seq<CipherSuite>,
                                                   v: Version, s: CipherSuite)
    ensures (v, s) in SupportingPairs(version, suites)
       <==> v == version && s in suites && v.value in s.supportedVersions
  {
    if suites != [] {
      SupportingPairsAreExact(version, suites[1..], v, s);
      assert suites == [suites[0]] + suites[1..];
    }
  }

  ghost predicate Distinct<T>(xs: seq<T>) {
    forall i, j | 0 <= i < j < |xs| :: xs[i] != xs[j]
  }

  /** No pair is probed twice. */
  lemma {:induction false} PairsAreDistinct(versions: seq<Version>, suites: seq<CipherSuite>)
    requires Distinct(versions) && Distinct(suites)
    ensures Distinct(Pairs(versions, suites))
  {
    if versions != [] {
      var first, rest := SupportingPairs(versions[0], suites), Pairs(versions[1..], suites);
      PairsAreDistinct(versions[1..], suites);
      SupportingPairsAreDistinct(versions[0], suites);
      forall p, q | p in first && q in rest
        ensures p != q
      {
        SupportingPairsAreExact(versions[0], suites, p.0, p.1);
        PairsAreExact(versions[1..], suites, q.0, q.1);
      }
      DistinctConcat(first, rest);
    }
  }

  lemma DistinctConcat<T>(a: seq<T>, b: seq<T>)
    requires Distinct(a) && Distinct(b) && forall x, y | x in a && y in b :: x != y
    ensures Distinct(a + b)
  {
    var all := a + b;
    forall i, j | 0 <= i < j < |all|
      ensures all[i] != all[j]
    {
      assert (all[i] in a || i >= |a|) && (all[j] in b || j < |a|);
    }
  }

  lemma {:induction false} SupportingPairsAreDistinct(v: Version, suites: seq<CipherSuite>)
    requires Distinct(suites)
    ensures Distinct(SupportingPairs(v, suites))
  {
    if suites != [] {
      SupportingPairsAreDistinct(v, suites[1..]);
      SupportingPairsAreExact(v, suites[1..], v, suites[0]);
    }
  }

  // ----- What classification guarantees -----

  /** An entry that classification could have produced. */
  ghost predicate IsClassified(c: TLSCipherSupport) {
    exists suite: CipherSuite :: c == ClassifyCipher(c.version, suite).(supported := c.supported, error := c.error)
  }

  lemma EntriesAreClassified(out: seq<TLSCipherSupport>, pairs: seq<(Version, CipherSuite)>, hs: Handshakes)
    requires IsInventory(out, pairs, hs)
    ensures forall c | c in out :: IsClassified(c)
  {
  }

  predicate IsWeak(c: TLSCipherSupport) {
    c.insecure || c.rc4 || c.tripleDES
  }

  predicate IsLegacy(c: TLSCipherSupport) {
    c.strength.Legacy? || c.cbc
  }

  /** What the ROBOT check takes for a static RSA key exchange, case and all. */
  predicate StaticRSAName(name: string) {
    Contains(name, "_RSA_") && !Contains(name, "_ECDHE_") && !Contains(name, "_DHE_")
  }

  predicate IsStaticRSA(c: TLSCipherSupport) {
    StaticRSAName(c.name)
  }

  /** What classification takes for forward secrecy, whatever the case. */
  predicate ForwardSecretName(name: string) {
    Contains(ToUpper(name), "_ECDHE_") || Contains(ToUpper(name), "_DHE_")
  }

  /** A name that the two take differently. */
  predicate Misread(name: string) {
    StaticRSAName(name) && ForwardSecretName(name)
  }

  /** No suite that is ever probed has a misread name. */
  ghost predicate NamesAgree(suites: seq<CipherSuite>) {
    forall v, s | v in CIPHER_VERSIONS && s in suites && v.value in s.supportedVersions :: !Misread(s.name)
  }

  /** One classified entry per pair, in order, each with an outcome of its own. */
  ghost predicate IsOutcome(out: seq<TLSCipherSupport>, pairs: seq<(Version, CipherSuite)>) {
    && |out| == |pairs|
    && forall i | 0 <= i < |out| ::
         out[i] == ClassifyCipher(pairs[i].0.name, pairs[i].1).(supported := out[i].supported, error := out[i].error)
  }

  lemma InventoryIsOutcome(out: seq<TLSCipherSupport>, pairs: seq<(Version, CipherSuite)>, hs: Handshakes)
    requires IsInventory(out, pairs, hs)
    ensures IsOutcome(out, pairs)
  {
    hide ClassifyCipher;
  }

  /** The versions whose suites are probed, by name and number. */
  lemma CipherVersions(v: Version)
    ensures v in CIPHER_VERSIONS
       <==> v in {Version("TLS 1.0", 0x0301), Version("TLS 1.1", 0x0302), Version("TLS 1.2", 0x0303)}
  {
  }

  /** What classification reads from a suite: some part of its name, in any case,
      for each mark; and weak before legacy before modern. */
  lemma ClassifiedByName(v: Version, s: CipherSuite)
    requires v in CIPHER_VERSIONS
    ensures var c, upper := ClassifyCipher(v.name, s), ToUpper(s.name);
            && c.version == v.name && c.id == s.id && c.name == s.name && !c.supported && c.error == ""
            && (c.rc4 <==> Contains(upper, "_RC4_"))
            && (c.tripleDES <==> Contains(upper, "_3DES_"))
            && (c.cbc <==> Contains(upper, "_CBC_"))
            && (c.aead <==> Contains(upper, "_GCM_") || Contains(upper, "CHACHA20") || Contains(upper, "_CCM_"))
            && (c.forwardSecrecy <==> Contains(upper, "_ECDHE_") || Contains(upper, "_DHE_"))
            && (c.insecure <==> s.insecure || c.rc4 || c.tripleDES)
            && (c.strength == Weak <==> c.insecure)
            && (c.strength == Modern <==> !c.insecure && v.value == 0x0303 && !c.cbc && c.forwardSecrecy)
  {
    VersionNames();
    hide Contains, ToUpper;
  }

  /** Of the probed versions, the names of 1.0 and 1.1 have those numbers in them. */
  lemma VersionNames()
    ensures Contains("TLS 1.0", "1.0") && Contains("TLS 1.1", "1.1")
    ensures !Contains("TLS 1.2", "1.0") && !Contains("TLS 1.2", "1.1")
  {
    assert OccursAt("TLS 1.0", "1.0", 4) && OccursAt("TLS 1.1", "1.1", 4);
    assert '0' in "1.0" && '0' !in "TLS 1.2";
    LacksChar("TLS 1.2", "1.0", '0');
    NotElevenInTwelve();
  }

  lemma NotElevenInTwelve()
    ensures !Contains("TLS 1.2", "1.1")
  {
    var s, t := "TLS 1.2", "1.1";
    forall i | 0 <= i <= |s|
      ensures !OccursAt(s, t, i)
    {
      assert i + 3 <= |s| ==> s[i..i + 3][0] != '1' || s[i..i + 3][2] != '1';
    }
  }

  /** Classification is coherent: "modern" is the absence of everything the analysis counts. */
  lemma ModernMeansClean(c: TLSCipherSupport)
    requires IsClassified(c)
    ensures c.strength.Modern? <==> !IsWeak(c) && !IsLegacy(c) && c.forwardSecrecy
  {
  }

  /** A classified static RSA suite has forward secrecy exactly when its name is misread. */
  lemma StaticRSALacksForwardSecrecy(c: TLSCipherSupport)
    requires IsClassified(c) && IsStaticRSA(c)
    ensures c.forwardSecrecy <==> Misread(c.name)
  {
  }

  /** Names in upper case, as all of Go's are, are never misread. */
  lemma UpperCaseIsNotMisread(name: string)
    requires ToUpper(name) == name
    ensures !Misread(name)
  {
  }

  /** Classification folds case and the ROBOT check does not, so some names would be misread. */
  lemma MixedCaseStaticRSA()
    ensures Misread("_ecdhe__RSA_")
  {
    var name := "_ecdhe__RSA_";
    assert OccursAt(name, "_RSA_", 7);
    assert OccursAt(ToUpper(name), "_ECDHE_", 0);
    assert 'E' in "_ECDHE_" && 'E' in "_DHE_";
    LacksChar(name, "_ECDHE_", 'E');
    LacksChar(name, "_DHE_", 'E');
  }
}
