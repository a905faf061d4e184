/** Turning user input into a target and an address (internal/checker/parse.go),
    and what happens when that address is given back as input. */
module Targets {
  import opened Bytes
  import opened Report

  datatype TargetError =
    | EmptyTarget
    | BadURL
    | UnsupportedScheme
    | EmptyURLHost
    | InvalidPort
    | InvalidBracketedIP
    | EmptyHost

  /** The components of `url.Parse` that are read. */
  datatype URLParts = URLParts(scheme: string, hostname: bytes, port: bytes, escapedPath: bytes, rawQuery: bytes)

  /** `net.ParseIP` succeeding, and `url.Parse`. */
  datatype Parsers = Parsers(isIP: bytes -> bool, parseURL: bytes -> Option<URLParts>)

  const BRACKETS: set<byte> := {OPEN_BRACKET, CLOSE_BRACKET}

  // ----- Numbers -----

  predicate IsDigit(b: byte) {
    48 <= b <= 57
  }

  predicate IsDigits(s: bytes) {
    s != [] && forall b | b in s :: IsDigit(b)
  }

  method AllDigits(s: bytes) returns (r: bool)
    ensures r == IsDigits(s)
  {
    for i := 0 to |s|
      invariant forall b | b in s[..i] :: IsDigit(b)
    {
      if s[i] < 48 || s[i] > 57 {
        assert !IsDigit(s[i]);
        return false;
      }
    }
    assert s[..|s|] == s;
    return s != [];
  }

  function DigitsValue(s: bytes): int
  {
    if s == [] then 0 else DigitsValue(s[..|s| - 1]) * 10 + (s[|s| - 1] as int - 48)
  }

  /** `strconv.Atoi`: an optional sign, then decimal digits. */
  function Atoi(s: bytes): Option<int> {
    if s != [] && (s[0] == 43 || s[0] == 45) then
      if IsDigits(s[1..]) then Some(if s[0] == 45 then -DigitsValue(s[1..]) else DigitsValue(s[1..])) else None
    else if IsDigits(s) then Some(DigitsValue(s)) else None
  }

  /** `strconv.Itoa` of a number that is not negative. */
  function Itoa(n: nat): (s: bytes)
    ensures IsDigits(s)
  {
    if n < 10 then [48 + n]
    else
      var front := Itoa(n / 10);
      assert forall b | b in front + [48 + n % 10] :: b in front || b == 48 + n % 10;
      front + [48 + n % 10]
  }

  lemma {:induction false} AtoiOfItoa(n: nat)
    ensures Atoi(Itoa(n)) == Some(n)
  {
    DigitsValueOfItoa(n);
    assert Itoa(n)[0] in Itoa(n);
    assert IsDigit(Itoa(n)[0]);
  }

  lemma {:induction false} DigitsValueOfItoa(n: nat)
    ensures DigitsValue(Itoa(n)) == n
  {
    var s := Itoa(n);
    if n >= 10 {
      DigitsValueOfItoa(n / 10);
      assert s[..|s| - 1] == Itoa(n / 10);
    } else {
      assert s[..0] == [];
    }
  }

  /** `parsePort` */
  function ParsePort(raw: bytes): (p: Option<int>)
    ensures p.Some? ==> 1 <= p.value <= 65535
  {
    match Atoi(raw)
    case None => None
    case Some(p) => if p < 1 || p > 65535 then None else Some(p)
  }

  /** A port is a run of decimal digits, after a plus sign at most, worth 1 to 65535. */
  lemma ParsePortReads(raw: bytes, p: int)
    ensures ParsePort(raw) == Some(p) <==>
      && 1 <= p <= 65535
      && exists digits | IsDigits(digits) :: (raw == digits || raw == [43] + digits) && DigitsValue(digits) == p
  {
    if ParsePort(raw) == Some(p) {
      var digits := if raw[0] == 43 || raw[0] == 45 then raw[1..] else raw;
      NoNegativeValue(digits);
      assert raw == digits || raw == [raw[0]] + digits;
      assert IsDigits(digits) && DigitsValue(digits) == p;
    }
    forall digits | IsDigits(digits) && (raw == digits || raw == [43] + digits)
                    && DigitsValue(digits) == p && 1 <= p <= 65535
      ensures ParsePort(raw) == Some(p)
    {
      assert IsDigit(digits[0]);
    }
  }

  lemma {:induction false} NoNegativeValue(digits: bytes)
    requires forall b | b in digits :: IsDigit(b)
    ensures DigitsValue(digits) >= 0
  {
    if digits != [] {
      assert digits[|digits| - 1] in digits;
      NoNegativeValue(digits[..|digits| - 1]);
    }
  }

  // ----- Host and port -----

  /** `net.JoinHostPort` */
  function JoinHostPort(host: bytes, port: bytes): bytes {
    if COLON in host then [OPEN_BRACKET] + host + [CLOSE_BRACKET, COLON] + port else host + [COLON] + port
  }

  /** `net.SplitHostPort`: the host, without the brackets around it, and the port. */
  function SplitHostPort(s: bytes): Option<(bytes, bytes)> {
    var i := LastIndexByte(s, COLON);
    if i < 0 then None
    else if s[0] == OPEN_BRACKET then
      var end := IndexByte(s, CLOSE_BRACKET);
      if end < 0 || end + 1 != i then None
      else if OPEN_BRACKET in s[1..] || CLOSE_BRACKET in s[end + 1..] then None
      else Some((s[1..end], s[i + 1..]))
    else if COLON in s[..i] || OPEN_BRACKET in s || CLOSE_BRACKET in s then None
    else Some((s[..i], s[i + 1..]))
  }

  datatype HostPort = HostPort(host: bytes, port: Option<int>)

  /** `splitHostPortLoose` */
  function SplitHostPortLoose(raw: bytes, isIP: bytes -> bool): Outcome<HostPort, TargetError> {
    var trimmed := TrimSpace(raw);
    if trimmed == [] then Err(EmptyTarget)
    else
      match SplitHostPort(trimmed)
      case Some((h, p)) =>
        if ParsePort(p).None? then Err(InvalidPort) else Ok(HostPort(Trim(h, BRACKETS), ParsePort(p)))
      case None =>
        var i := LastIndexByte(trimmed, COLON);
        if trimmed[0] == OPEN_BRACKET && trimmed[|trimmed| - 1] == CLOSE_BRACKET then
          var inside := Trim(trimmed, BRACKETS);
          if isIP(inside) then Ok(HostPort(inside, None)) else Err(InvalidBracketedIP)
        else if i >= 0 && COLON !in trimmed[..i] && IsDigits(trimmed[i + 1..]) then
          if ParsePort(trimmed[i + 1..]).None? then Err(InvalidPort)
          else Ok(HostPort(trimmed[..i], ParsePort(trimmed[i + 1..])))
        else Ok(HostPort(Trim(trimmed, BRACKETS), None))
  }

  /** Whether "://" occurs in `s`. */
  predicate HasScheme(s: bytes) {
    exists i | 0 <= i < |s| - 2 :: s[i] == COLON && s[i + 1] == SLASH && s[i + 2] == SLASH
  }

  // ----- Targets -----

  /** What the URL branch and the host:port branch find, before the common finish. */
  datatype Found = Found(scheme: string, host: bytes, port: int, path: bytes)

  function FoundInURL(raw: bytes, parsers: Parsers): (r: Outcome<Found, TargetError>)
    ensures r.Ok? ==> r.value.port >= 1 && r.value.host != []
  {
    match parsers.parseURL(raw)
    case None => Err(BadURL)
    case Some(u) =>
      var host := TrimSpace(u.hostname);
      var path := (if u.escapedPath == [] then [SLASH] else u.escapedPath)
                  + (if u.rawQuery == [] then [] else [63] + u.rawQuery);
      if u.scheme != "http" && u.scheme != "https" then Err(UnsupportedScheme)
      else if host == [] then Err(EmptyURLHost)
      else if u.port != [] && ParsePort(u.port).None? then Err(InvalidPort)
      else
        var port := if u.port != [] then ParsePort(u.port).value else if u.scheme == "http" then 80 else 443;
        Ok(Found(u.scheme, host, port, path))
  }

  function FoundInText(raw: bytes, parsers: Parsers): (r: Outcome<Found, TargetError>)
    ensures r.Ok? ==> r.value.port >= 1
  {
    match SplitHostPortLoose(raw, parsers.isIP)
    case Err(e) => Err(e)
    case Ok(hp) => Ok(Found("https", hp.host, if hp.port.Some? then hp.port.value else 443, [SLASH]))
  }

  /** The target that `input` stands for. */
  function TargetOf(input: bytes, opt: Options, parsers: Parsers): Outcome<Target, TargetError> {
    var raw := TrimSpace(input);
    if raw == [] then Err(EmptyTarget)
    else
      match (if HasScheme(raw) then FoundInURL(raw, parsers) else FoundInText(raw, parsers))
      case Err(e) => Err(e)
      case Ok(f) =>
        var host := Trim(f.host, BRACKETS);
        var port := if opt.port > 0 then opt.port else f.port;
        if f.host == [] then Err(EmptyHost)
        else Ok(Target(raw, f.scheme, host, port, f.path, JoinHostPort(host, Itoa(port)), parsers.isIP(host)))
  }

  method ParseTarget(input: bytes, opt: Options, parsers: Parsers) returns (r: Outcome<Target, TargetError>)
    ensures r == TargetOf(input, opt, parsers)
  {
    var raw := TrimSpace(input);
    if raw == [] {
      return Err(EmptyTarget);
    }
    var t := Target(raw, "https", [], 443, [SLASH], [], false);
    if HasScheme(raw) {
      var u := parsers.parseURL(raw);
      if u.None? {
        return Err(BadURL);
      }
      var scheme := u.value.scheme;
      if scheme != "http" && scheme != "https" {
        return Err(UnsupportedScheme);
      }
      t := t.(scheme := scheme);
      t := t.(host := TrimSpace(u.value.hostname));
      if t.host == [] {
        return Err(EmptyURLHost);
      }
      if u.value.port != [] {
        var port := ParsePort(u.value.port);
        if port.None? {
          return Err(InvalidPort);
        }
        t := t.(port := port.value);
      } else if scheme == "http" {
        t := t.(port := 80);
      }
      if u.value.escapedPath != [] {
        t := t.(path := u.value.escapedPath);
      }
      if u.value.rawQuery != [] {
        t := t.(path := t.path + ([63] + u.value.rawQuery));
      }
      assert FoundInURL(raw, parsers) == Ok(Found(t.scheme, t.host, t.port, t.path)) by {
        var path := if u.value.escapedPath == [] then [SLASH] else u.value.escapedPath;
        assert path + [] == path;
      }
    } else {
      var hostPort := SplitHostPortLoose(raw, parsers.isIP);
      if hostPort.Err? {
        return Err(hostPort.error);
      }
      t := t.(host := hostPort.value.host);
      if hostPort.value.port.Some? {
        t := t.(port := hostPort.value.port.value);
      }
    }
    if opt.port > 0 {
      t := t.(port := opt.port);
    }
    if t.host == [] {
      return Err(EmptyHost);
    }
    t := t.(host := Trim(t.host, BRACKETS));
    t := t.(isIP := parsers.isIP(t.host));
    t := t.(address := JoinHostPort(t.host, Itoa(t.port)));
    return Ok(t);
  }

  // ----- What every accepted target is like -----

  lemma SchemeOfSlice(s: bytes, i: nat, j: nat)
    requires i <= j <= |s|
    ensures HasScheme(s[i..j]) ==> HasScheme(s)
    ensures SLASH in s[i..j] ==> SLASH in s
  {
  }

  lemma {:induction false} SchemeOfTrim(s: bytes, cutset: set<byte>)
    ensures HasScheme(Trim(s, cutset)) ==> HasScheme(s)
    ensures SLASH in Trim(s, cutset) ==> SLASH in s
    decreases |s|
  {
    hide HasScheme;
    if s != [] && s[0] in cutset {
      SchemeOfTrim(s[1..], cutset);
      SchemeOfSlice(s, 1, |s|);
      assert s[1..] == s[1..|s|];
    } else if s != [] && s[|s| - 1] in cutset {
      SchemeOfTrim(s[..|s| - 1], cutset);
      SchemeOfSlice(s, 0, |s| - 1);
    }
  }

  lemma {:induction false} SchemeOfTrimSpace(s: bytes)
    ensures HasScheme(TrimSpace(s)) ==> HasScheme(s)
    ensures SLASH in TrimSpace(s) ==> SLASH in s
    decreases |s|
  {
    hide HasScheme, SpacePrefix, SpaceSuffix;
    if SpacePrefix(s) > 0 {
      SchemeOfTrimSpace(s[SpacePrefix(s)..]);
      SchemeOfSlice(s, SpacePrefix(s), |s|);
      assert s[SpacePrefix(s)..] == s[SpacePrefix(s)..|s|];
    } else if SpaceSuffix(s) > 0 {
      SchemeOfTrimSpace(s[..|s| - SpaceSuffix(s)]);
      SchemeOfSlice(s, 0, |s| - SpaceSuffix(s));
    }
  }

  lemma SchemeOfSplitHost(s: bytes)
    requires SplitHostPort(s).Some?
    ensures HasScheme(SplitHostPort(s).value.0) ==> HasScheme(s)
  {
  }

  lemma SchemeOfLoose(raw: bytes, isIP: bytes -> bool)
    requires SplitHostPortLoose(raw, isIP).Ok?
    ensures HasScheme(SplitHostPortLoose(raw, isIP).value.host) ==> HasScheme(raw)
  {
    hide HasScheme, SplitHostPort, ParsePort;
    var s := TrimSpace(raw);
    SchemeOfTrimSpace(raw);
    SchemeOfTrim(s, BRACKETS);
    if SplitHostPort(s).Some? {
      SchemeOfSplitHost(s);
      SchemeOfTrim(SplitHostPort(s).value.0, BRACKETS);
    } else if LastIndexByte(s, COLON) >= 0 {
      SchemeOfSlice(s, 0, LastIndexByte(s, COLON));
    }
  }

  /** A URL's host name has no slash in it: the authority ends at the first one. */
  ghost predicate HostsEndAtSlash(parsers: Parsers) {
    forall raw :: parsers.parseURL(raw).Some? ==> SLASH !in parsers.parseURL(raw).value.hostname
  }

  /** What every accepted target is like. */
  lemma AcceptedTarget(input: bytes, opt: Options, parsers: Parsers, t: Target)
    requires TargetOf(input, opt, parsers) == Ok(t)
    ensures t.port >= 1 && (t.scheme == "http" || t.scheme == "https")
    ensures t.address == JoinHostPort(t.host, Itoa(t.port)) && t.isIP == parsers.isIP(t.host)
    ensures t.host != [] ==> t.host[0] !in BRACKETS && t.host[|t.host| - 1] !in BRACKETS
    ensures HostsEndAtSlash(parsers) ==> !HasScheme(t.host)
  {
    hide HasScheme, SplitHostPortLoose;
    var raw := TrimSpace(input);
    if HasScheme(raw) {
      var hostname := parsers.parseURL(raw).value.hostname;
      SchemeOfTrimSpace(hostname);
      SchemeOfTrim(TrimSpace(hostname), BRACKETS);
      NoSlashNoScheme(t.host);
    } else {
      SchemeOfLoose(raw, parsers.isIP);
      SchemeOfTrim(SplitHostPortLoose(raw, parsers.isIP).value.host, BRACKETS);
    }
  }

  lemma NoSlashNoScheme(s: bytes)
    ensures HasScheme(s) ==> SLASH in s
  {
  }

  // ----- Reading an address back -----

  /** `s` without its leading spaces. */
  function TrimLeft(s: bytes): (r: bytes)
    ensures |r| <= |s| && SpacePrefix(r) == 0
    ensures SpacePrefix(s) == 0 ==> r == s
    ensures SpacePrefix(s) > 0 ==> |r| < |s|
    ensures forall b | b in r :: b in s
    decreases |s|
  {
    if SpacePrefix(s) > 0 then TrimLeft(s[SpacePrefix(s)..]) else s
  }

  lemma {:induction false} TrimSpaceOfAddress(host: bytes, port: bytes)
    requires IsDigits(port)
    ensures TrimSpace(host + [COLON] + port) == TrimLeft(host) + [COLON] + port
    decreases |host|
  {
    var s := host + [COLON] + port;
    assert SpacePrefix(s) == SpacePrefix(host);
    assert IsDigit(port[|port| - 1]);
    if SpacePrefix(host) > 0 {
      assert s[SpacePrefix(host)..] == host[SpacePrefix(host)..] + [COLON] + port;
      TrimSpaceOfAddress(host[SpacePrefix(host)..], port);
    } else {
      assert s[|s| - 1] == port[|port| - 1];
      assert SpaceSuffix(s) == 0;
    }
  }

  lemma NoColonInDigits(port: bytes)
    requires IsDigits(port)
    ensures COLON !in port && OPEN_BRACKET !in port && CLOSE_BRACKET !in port && SLASH !in port
    ensures port != [] && IsDigit(port[|port| - 1])
  {
  }

  /** The parts of `host:port` for a colon-free host. */
  lemma SplitOfPlain(host: bytes, port: bytes)
    requires COLON !in host && IsDigits(port)
    ensures var s := host + [COLON] + port;
            && LastIndexByte(s, COLON) == |host| && s[..|host|] == host && s[|host| + 1..] == port
            && (SplitHostPort(s).Some? ==> SplitHostPort(s).value.1 == port && |SplitHostPort(s).value.0| <= |host|)
            && (SplitHostPort(s).Some? && (host == [] || host[0] != OPEN_BRACKET) ==> SplitHostPort(s).value.0 == host)
  {
    var s := host + [COLON] + port;
    NoColonInDigits(port);
    assert s[..|host|] == host && s[|host| + 1..] == port;
    LastColon(s, |host|);
  }

  lemma LastColon(s: bytes, i: nat)
    requires i < |s| && s[i] == COLON && COLON !in s[i + 1..]
    ensures LastIndexByte(s, COLON) == i
  {
  }

  ghost predicate NoBracketAtEnds(host: bytes) {
    host == [] || (host[0] !in BRACKETS && host[|host| - 1] !in BRACKETS)
  }

  /** A colon-free host and a port, read back: the port decides acceptance, and
      the host survives when no bracket stands at its ends. */
  lemma LooseOfPlain(host: bytes, port: bytes, isIP: bytes -> bool)
    requires COLON !in host && IsDigits(port) && SpacePrefix(host) == 0
    ensures var r := SplitHostPortLoose(host + [COLON] + port, isIP);
            && (ParsePort(port).None? ==> r.Err?)
            && (ParsePort(port).Some? ==> r.Ok? && |r.value.host| <= |host| && r.value.port == ParsePort(port))
            && (ParsePort(port).Some? && NoBracketAtEnds(host) ==> r.value.host == host)
  {
    var s := host + [COLON] + port;
    hide SplitHostPort, ParsePort, TrimSpace, IsDigits;
    TrimSpaceOfAddress(host, port);
    SplitOfPlain(host, port);
    NoColonInDigits(port);
    assert s[|s| - 1] == port[|port| - 1];
  }

  /** `[host]:port`, read back: the host survives when it has no bracket in it, and is lengthened otherwise. */
  lemma LooseOfBracketed(host: bytes, port: bytes, isIP: bytes -> bool)
    requires COLON in host && NoBracketAtEnds(host) && IsDigits(port)
    ensures var clean := OPEN_BRACKET !in host && CLOSE_BRACKET !in host;
            var r := SplitHostPortLoose(JoinHostPort(host, port), isIP);
            && (clean && ParsePort(port).None? ==> r.Err?)
            && (clean && ParsePort(port).Some? ==> r == Ok(HostPort(host, ParsePort(port))))
            && (!clean ==> r.Ok? && |r.value.host| > |host| && NoBracketAtEnds(r.value.host))
  {
    var s := JoinHostPort(host, port);
    hide SplitHostPort, ParsePort, TrimSpace, Trim, IsDigits, JoinHostPort;
    BracketedStaysWhole(host, port);
    SplitOfBracketed(host, port);
    BracketedAsText(host, port);
    NoColonInDigits(port);
  }

  lemma BracketedAsText(host: bytes, port: bytes)
    requires COLON in host && NoBracketAtEnds(host) && IsDigits(port)
    ensures var s := JoinHostPort(host, port);
            && Trim(s, BRACKETS) == host + [CLOSE_BRACKET, COLON] + port
            && NoBracketAtEnds(Trim(s, BRACKETS)) && Trim(host, BRACKETS) == host
            && s[|s| - 1] == port[|port| - 1]
            && LastIndexByte(s, COLON) == |host| + 2 && COLON in s[..|host| + 2]
  {
    var s := JoinHostPort(host, port);
    var tail := host + [CLOSE_BRACKET, COLON] + port;
    NoColonInDigits(port);
    assert s[1..] == tail && tail[0] == host[0] && tail[|tail| - 1] == port[|port| - 1];
    assert s[|host| + 3..] == port;
    LastColon(s, |host| + 2);
    assert s[..|host| + 2][1..][..|host|] == host;
  }

  lemma SplitOfBracketed(host: bytes, port: bytes)
    requires COLON in host && IsDigits(port)
    ensures SplitHostPort(JoinHostPort(host, port))
         == if OPEN_BRACKET in host || CLOSE_BRACKET in host then None else Some((host, port))
  {
    hide JoinHostPort, IndexByte, LastIndexByte, IsDigits;
    BracketedParts(host, port);
  }

  lemma BracketedParts(host: bytes, port: bytes)
    requires COLON in host && IsDigits(port)
    ensures var s := JoinHostPort(host, port);
            && |s| > |host| + 3 && s[0] == OPEN_BRACKET
            && s[1..|host| + 1] == host && s[|host| + 3..] == port
            && LastIndexByte(s, COLON) == |host| + 2
            && IndexByte(s, CLOSE_BRACKET) >= 0
            && (IndexByte(s, CLOSE_BRACKET) == |host| + 1 <==> CLOSE_BRACKET !in host)
            && (OPEN_BRACKET in s[1..] <==> OPEN_BRACKET in host)
            && CLOSE_BRACKET !in s[|host| + 2..]
  {
    hide IndexByte, LastIndexByte, IsDigits;
    var s := JoinHostPort(host, port);
    NoColonInDigits(port);
    assert s[|host| + 3..] == port && s[1..|host| + 1] == host && s[|host| + 2..] == [COLON] + port;
    LastColon(s, |host| + 2);
    ClosingBracket(s, host);
    assert s[1..] == host + [CLOSE_BRACKET, COLON] + port;
  }

  lemma ClosingBracket(s: bytes, host: bytes)
    requires |s| >= |host| + 2 && s[0] == OPEN_BRACKET && s[1..|host| + 1] == host && s[|host| + 1] == CLOSE_BRACKET
    ensures IndexByte(s, CLOSE_BRACKET) >= 0
    ensures IndexByte(s, CLOSE_BRACKET) == |host| + 1 <==> CLOSE_BRACKET !in host
  {
    var end := IndexByte(s, CLOSE_BRACKET);
    assert forall k | 0 <= k < |host| :: host[k] == s[k + 1];
    assert 1 <= end <= |host| ==> host[end - 1] == CLOSE_BRACKET;
  }

  /** No "://" arises in an address that its host does not have. */
  lemma SchemeOfAddress(host: bytes, port: bytes)
    requires IsDigits(port)
    ensures HasScheme(JoinHostPort(host, port)) ==> HasScheme(host)
  {
    var s := JoinHostPort(host, port);
    if HasScheme(s) {
      var i :| 0 <= i < |s| - 2 && s[i] == COLON && s[i + 1] == SLASH && s[i + 2] == SLASH;
      var d := if COLON in host then 1 else 0;
      NoColonInDigits(port);
      assert s[d..d + |host|] == host && s[|s| - |port|..] == port;
      assert forall k | |s| - |port| <= k < |s| :: s[k] == s[|s| - |port|..][k - (|s| - |port|)];
      assert forall k | d <= k < d + |host| :: s[k] == s[d..d + |host|][k - d];
      assert host[i - d] == COLON && host[i - d + 1] == SLASH && host[i - d + 2] == SLASH;
    }
  }

  /** A target whose address reads back as itself. */
  ghost predicate Rereads(t: Target, parsers: Parsers) {
    var again := TargetOf(t.address, DEFAULT_OPTIONS, parsers);
    && again.Ok?
    && again.value.host == t.host
    && again.value.port == t.port
    && again.value.isIP == t.isIP
    && again.value.address == t.address
  }

  /** The condition for that: a host at all, a port in range, and, where the
      address brackets the host, no bracket in it; where not, no space before it. */
  predicate Rereadable(t: Target) {
    && t.host != []
    && t.port <= 65535
    && (if COLON in t.host then OPEN_BRACKET !in t.host && CLOSE_BRACKET !in t.host else SpacePrefix(t.host) == 0)
  }

  /** Printing and parsing an address is a fixpoint for every accepted target
      that meets the condition, and for no other. */
  lemma AddressFixpoint(input: bytes, opt: Options, parsers: Parsers, t: Target)
    requires HostsEndAtSlash(parsers) && TargetOf(input, opt, parsers) == Ok(t)
    ensures Rereads(t, parsers) <==> Rereadable(t)
  {
    AcceptedTarget(input, opt, parsers, t);
    SchemeOfAddress(t.host, Itoa(t.port));
    hide HasScheme, TargetOf, Itoa, JoinHostPort, Rereads, Rereadable;
    if COLON in t.host {
      BracketedFixpoint(t, parsers);
    } else {
      PlainFixpoint(t, parsers);
    }
  }

  ghost predicate Accepted(t: Target, parsers: Parsers) {
    && t.port >= 1
    && t.address == JoinHostPort(t.host, Itoa(t.port)) && t.isIP == parsers.isIP(t.host)
    && NoBracketAtEnds(t.host)
    && !HasScheme(t.address)
  }

  lemma PlainFixpoint(t: Target, parsers: Parsers)
    requires Accepted(t, parsers) && COLON !in t.host
    ensures Rereads(t, parsers) <==> Rereadable(t)
  {
    hide HasScheme, TargetOf, SplitHostPortLoose, TrimSpace, TrimLeft, SpacePrefix, Itoa, Atoi, Trim;
    var port := Itoa(t.port);
    AtoiOfItoa(t.port);
    RereadIsLoose(t.address, parsers);
    TrimSpaceOfAddress(t.host, port);
    LooseOfPlain(TrimLeft(t.host), port, parsers.isIP);
  }

  lemma BracketedFixpoint(t: Target, parsers: Parsers)
    requires Accepted(t, parsers) && COLON in t.host
    ensures Rereads(t, parsers) <==> Rereadable(t)
  {
    hide HasScheme, TargetOf, SplitHostPortLoose, TrimSpace, JoinHostPort, SpacePrefix, Itoa, Atoi, Trim;
    var port := Itoa(t.port);
    AtoiOfItoa(t.port);
    RereadIsLoose(t.address, parsers);
    BracketedStaysWhole(t.host, port);
    LooseOfBracketed(t.host, port, parsers.isIP);
  }

  /** An address without "://" goes through the host:port branch, with nothing overriding its port. */
  lemma RereadIsLoose(address: bytes, parsers: Parsers)
    requires !HasScheme(address)
    ensures var r := TargetOf(address, DEFAULT_OPTIONS, parsers);
            var hp := SplitHostPortLoose(TrimSpace(address), parsers.isIP);
            && (r.Ok? ==> hp.Ok? && hp.value.host != [] && TrimSpace(address) != [])
            && (hp.Ok? && hp.value.host != [] && TrimSpace(address) != [] ==>
                  && r.Ok?
                  && r.value.host == Trim(hp.value.host, BRACKETS)
                  && r.value.port == (if hp.value.port.Some? then hp.value.port.value else 443)
                  && r.value.isIP == parsers.isIP(r.value.host)
                  && r.value.address == JoinHostPort(r.value.host, Itoa(r.value.port)))
  {
    hide HasScheme, SplitHostPortLoose;
    SchemeOfTrimSpace(address);
  }

  lemma BracketedStaysWhole(host: bytes, port: bytes)
    requires COLON in host && IsDigits(port)
    ensures TrimSpace(JoinHostPort(host, port)) == JoinHostPort(host, port) != []
  {
    hide TrimSpace, TrimLeft, IsDigits;
    var head := [OPEN_BRACKET] + host + [CLOSE_BRACKET];
    assert SpacePrefix(head) == 0;
    TrimSpaceOfAddress(head, port);
    assert JoinHostPort(host, port) == head + [COLON] + port;
  }

  // ----- Targets that do not read back -----

  /** A bracket that opens and never closes is taken for part of the host, up to the only colon. */
  lemma OpenBracketIsAccepted(front: bytes, parsers: Parsers)
    requires front != [] && front[0] == OPEN_BRACKET
    requires COLON !in front && CLOSE_BRACKET !in front && SLASH !in front
    ensures var r := TargetOf(front + [COLON, 56, 48], DEFAULT_OPTIONS, parsers);
            r.Ok? && r.value.host == Trim(front, BRACKETS) && r.value.port == 80
  {
    var port := [56, 48];
    var input := front + [COLON] + port;
    assert input == front + [COLON, 56, 48] && SLASH !in input && TrimLeft(front) == front;
    hide *;
    PortEighty();
    TrimSpaceOfAddress(front, port);
    LooseOfOpenBracket(front, port, parsers.isIP);
    NoSlashNoScheme(input);
    RereadIsLoose(input, parsers);
  }

  lemma PortEighty()
    ensures IsDigits([56, 48]) && ParsePort([56, 48]) == Some(80)
  {
    AtoiOfItoa(80);
    assert Itoa(8) == [56];
    assert Itoa(80) == [56, 48];
  }

  lemma LooseOfOpenBracket(front: bytes, port: bytes, isIP: bytes -> bool)
    requires front != [] && front[0] == OPEN_BRACKET && COLON !in front && CLOSE_BRACKET !in front
    requires IsDigits(port) && ParsePort(port).Some?
    ensures SplitHostPortLoose(front + [COLON] + port, isIP) == Ok(HostPort(front, ParsePort(port)))
  {
    var s := front + [COLON] + port;
    NoColonInDigits(port);
    TrimSpaceOfAddress(front, port);
    assert TrimLeft(front) == front && s[|s| - 1] == port[|port| - 1] && s[0] == front[0];
    assert CLOSE_BRACKET !in s;
    SplitOfPlain(front, port);
    hide TrimSpace, Trim, ParsePort, IsDigits, LastIndexByte, IndexByte, TrimLeft;
  }

  /** The input "[:80" is accepted with a host that is empty once its bracket is trimmed. */
  lemma EmptyHostIsAccepted(parsers: Parsers)
    requires HostsEndAtSlash(parsers)
    ensures var r := TargetOf([OPEN_BRACKET, COLON, 56, 48], DEFAULT_OPTIONS, parsers);
            r.Ok? && r.value.host == [] && !Rereads(r.value, parsers)
  {
    var input := [OPEN_BRACKET, COLON, 56, 48];
    OpenBracketIsAccepted([OPEN_BRACKET], parsers);
    assert [OPEN_BRACKET] + [COLON, 56, 48] == input;
    assert Trim([OPEN_BRACKET], BRACKETS) == [];
    hide TargetOf, Rereads;
    AddressFixpoint(input, DEFAULT_OPTIONS, parsers, TargetOf(input, DEFAULT_OPTIONS, parsers).value);
  }

  /** Any input that is accepted at all is accepted with the port option at 65536. */
  lemma AnyPortIsAccepted(input: bytes, opt: Options, parsers: Parsers)
    requires HostsEndAtSlash(parsers) && TargetOf(input, opt, parsers).Ok?
    ensures var r := TargetOf(input, opt.(port := 65536), parsers);
            r.Ok? && r.value.port == 65536 && !Rereads(r.value, parsers)
  {
    var far := opt.(port := 65536);
    assert TargetOf(input, far, parsers).Ok? && TargetOf(input, far, parsers).value.port == 65536;
    hide TargetOf, Rereads;
    AddressFixpoint(input, far, parsers, TargetOf(input, far, parsers).value);
  }

  /** The input "[ a:80" is accepted with a space before the host. */
  lemma LeadingSpaceIsAccepted(parsers: Parsers)
    requires HostsEndAtSlash(parsers)
    ensures var r := TargetOf([OPEN_BRACKET, 32, 97, COLON, 56, 48], DEFAULT_OPTIONS, parsers);
            r.Ok? && r.value.host == [32, 97] && !Rereads(r.value, parsers)
  {
    var input, front := [OPEN_BRACKET, 32, 97, COLON, 56, 48], [OPEN_BRACKET, 32, 97];
    SpacedHost();
    hide *;
    assert front + [COLON, 56, 48] == input;
    OpenBracketIsAccepted(front, parsers);
    AddressFixpoint(input, DEFAULT_OPTIONS, parsers, TargetOf(input, DEFAULT_OPTIONS, parsers).value);
  }

  lemma SpacedHost()
    ensures Trim([OPEN_BRACKET, 32, 97], BRACKETS) == [32, 97]
    ensures forall t: Target :: t.host == [32, 97] ==> !Rereadable(t)
  {
    assert [OPEN_BRACKET, 32, 97][1..] == [32, 97] && Trim([32, 97], BRACKETS) == [32, 97];
    assert SpacePrefix([32, 97]) == 1;
  }

  /** Text with two colons and no bracket at its ends is one host, without a port. */
  lemma ColonsStayTogether(front: bytes, back: bytes, parsers: Parsers)
    requires COLON in front && COLON !in back && back != []
    requires var s := front + [COLON] + back;
             SpacePrefix(s) == 0 && SpaceSuffix(s) == 0 && SLASH !in s && s[0] !in BRACKETS && s[|s| - 1] !in BRACKETS
    ensures var r := TargetOf(front + [COLON] + back, DEFAULT_OPTIONS, parsers);
            r.Ok? && r.value.host == front + [COLON] + back
  {
    var s := front + [COLON] + back;
    assert TrimSpace(s) == s && Trim(s, BRACKETS) == s;
    assert s[|front| + 1..] == back && s[..|front|] == front;
    LastColon(s, |front|);
    NoSlashNoScheme(s);
    hide TrimSpace, Trim, ParsePort, IsDigits, LastIndexByte, IndexByte, TargetOf, HasScheme, SpacePrefix, SpaceSuffix;
    assert SplitHostPortLoose(s, parsers.isIP) == Ok(HostPort(s, None));
    RereadIsLoose(s, parsers);
  }

  /** The input "a[b:c:d" is accepted as a host, with the bracket inside it. */
  lemma InnerBracketIsAccepted(parsers: Parsers)
    requires HostsEndAtSlash(parsers)
    ensures var input := [97, OPEN_BRACKET, 98, COLON, 99, COLON, 100];
            var r := TargetOf(input, DEFAULT_OPTIONS, parsers);
            r.Ok? && r.value.host == input && !Rereads(r.value, parsers)
  {
    var input := [97, OPEN_BRACKET, 98, COLON, 99, COLON, 100];
    var front, back: bytes := [97, OPEN_BRACKET, 98, COLON, 99], [100];
    assert input == front + [COLON] + back && front[3] == COLON;
    assert COLON == input[3] && OPEN_BRACKET == input[1];
    hide TargetOf, Rereads;
    ColonsStayTogether(front, back, parsers);
    AddressFixpoint(input, DEFAULT_OPTIONS, parsers, TargetOf(input, DEFAULT_OPTIONS, parsers).value);
  }

  // ----- What an input stands for -----

  /** Having a scheme is having "://" somewhere. */
  lemma SchemeExactly(s: bytes)
    ensures var mark := [':' as int, '/' as int, '/' as int];
            HasScheme(s) <==> exists front: bytes :: front + mark <= s
  {
    var mark := [':' as int, '/' as int, '/' as int];
    if HasScheme(s) {
      var i :| 0 <= i < |s| - 2 && s[i] == COLON && s[i + 1] == SLASH && s[i + 2] == SLASH;
      assert s[..i] + mark == s[..i + 3];
    }
    forall front: bytes | front + mark <= s
      ensures HasScheme(s)
    {
      var i := |front|;
      assert s[i] == (front + mark)[i] && s[i + 1] == (front + mark)[i + 1] && s[i + 2] == (front + mark)[i + 2];
    }
  }

  /** A URL is accepted exactly with scheme http or https, a host and a port that
      parses or none; http stands for port 80 and https for 443, the option and then
      the URL going first; the path is "/" at least, the query after a "?". */
  lemma URLTarget(input: bytes, opt: Options, parsers: Parsers, u: URLParts)
    requires HasScheme(TrimSpace(input)) && parsers.parseURL(TrimSpace(input)) == Some(u)
    ensures var r := TargetOf(input, opt, parsers);
            && (r.Ok? <==>
                  && (u.scheme == "http" || u.scheme == "https") && TrimSpace(u.hostname) != []
                  && (u.port == [] || ParsePort(u.port).Some?))
            && (r == Err(UnsupportedScheme) <==> u.scheme != "http" && u.scheme != "https")
            && (r.Ok? ==>
                  && r.value.input == TrimSpace(input) && r.value.scheme == u.scheme
                  && r.value.host == Trim(TrimSpace(u.hostname), {'[' as int, ']' as int})
                  && (opt.port > 0 ==> r.value.port == opt.port)
                  && (opt.port <= 0 && u.port != [] ==> ParsePort(u.port) == Some(r.value.port))
                  && (opt.port <= 0 && u.port == [] ==> r.value.port == if u.scheme == "http" then 80 else 443)
                  && r.value.path == (if u.escapedPath == [] then ['/' as int] else u.escapedPath)
                                     + (if u.rawQuery == [] then [] else ['?' as int] + u.rawQuery))
  {
    assert TrimSpace(input) != [];
    hide TrimSpace, Trim, ParsePort, HasScheme, JoinHostPort, Itoa;
  }

  /** A text that is no URL is https with the path "/", on port 443 but for the option and its own. */
  lemma TextTarget(input: bytes, opt: Options, parsers: Parsers)
    requires !HasScheme(TrimSpace(input))
    ensures var r := TargetOf(input, opt, parsers);
            && (r == Err(EmptyTarget) <== TrimSpace(input) == [])
            && (r.Ok? ==>
                  && r.value.input == TrimSpace(input) && r.value.scheme == "https" && r.value.path == ['/' as int]
                  && SplitHostPortLoose(TrimSpace(input), parsers.isIP).Ok?
                  && var own := SplitHostPortLoose(TrimSpace(input), parsers.isIP).value.port;
                     r.value.port == if opt.port > 0 then opt.port else if own.Some? then own.value else 443)
  {
    hide TrimSpace, Trim, HasScheme, JoinHostPort, Itoa, SplitHostPortLoose;
  }

  /** A literal address in brackets is accepted without a port; anything else in brackets is not. */
  lemma BracketedAddress(inside: bytes, parsers: Parsers)
    requires inside != [] && SLASH !in inside && OPEN_BRACKET !in inside && CLOSE_BRACKET !in inside
    ensures var r := TargetOf(['[' as int] + inside + [']' as int], DEFAULT_OPTIONS, parsers);
            if parsers.isIP(inside) then r.Ok? && r.value.host == inside && r.value.port == 443
            else r == Err(InvalidBracketedIP)
  {
    var s := [OPEN_BRACKET] + inside + [CLOSE_BRACKET];
    BracketedPlainly(inside);
    hide *;
    BracketedText(inside, parsers.isIP);
    NoSlashNoScheme(s);
    if !parsers.isIP(inside) {
      BracketedRefused(s, parsers);
    }
    RereadIsLoose(s, parsers);
  }

  lemma BracketedPlainly(inside: bytes)
    requires inside != [] && SLASH !in inside && OPEN_BRACKET !in inside && CLOSE_BRACKET !in inside
    ensures var s := [OPEN_BRACKET] + inside + [CLOSE_BRACKET];
            SLASH !in s && TrimSpace(s) == s && Trim(inside, BRACKETS) == inside
  {
    hide Trim;
  }

  lemma BracketedRefused(s: bytes, parsers: Parsers)
    requires s != [] && TrimSpace(s) == s && !HasScheme(s) && SplitHostPortLoose(s, parsers.isIP).Err?
    ensures TargetOf(s, DEFAULT_OPTIONS, parsers) == Err(SplitHostPortLoose(s, parsers.isIP).error)
  {
    hide TrimSpace, HasScheme, SplitHostPortLoose;
  }

  lemma BracketedText(inside: bytes, isIP: bytes -> bool)
    requires inside != [] && OPEN_BRACKET !in inside && CLOSE_BRACKET !in inside
    ensures var s := [OPEN_BRACKET] + inside + [CLOSE_BRACKET];
            SplitHostPortLoose(s, isIP) == if isIP(inside) then Ok(HostPort(inside, None)) else Err(InvalidBracketedIP)
  {
    var s := [OPEN_BRACKET] + inside + [CLOSE_BRACKET];
    assert s[1..] == inside + [CLOSE_BRACKET] && (inside + [CLOSE_BRACKET])[..|inside|] == inside;
    assert TrimSpace(s) == s;
    assert Trim(inside + [CLOSE_BRACKET], BRACKETS) == inside && Trim(s, BRACKETS) == inside;
    ClosingBracketLast(s, inside);
    hide TrimSpace, Trim, ParsePort, IsDigits, IndexByte, LastIndexByte;
  }

  lemma ClosingBracketLast(s: bytes, inside: bytes)
    requires CLOSE_BRACKET !in inside && s == [OPEN_BRACKET] + inside + [CLOSE_BRACKET]
    ensures IndexByte(s, CLOSE_BRACKET) == |s| - 1
    ensures LastIndexByte(s, COLON) < |s|
  {
    var end := IndexByte(s, CLOSE_BRACKET);
    assert s[|s| - 1] == CLOSE_BRACKET;
    assert forall k | 0 <= k < |inside| :: s[k + 1] == inside[k];
    assert s[0] != CLOSE_BRACKET;
  }
}
