# sslcertcheck: a verified model

`sslcertcheck` inspects TLS endpoints: it parses a target, resolves its name, looks up CAA records
with a DNS client of its own, completes handshakes, verifies the certificate chain, and turns what
it saw into findings, a score and a grade. This project models that program from the input string to
the process exit code and proves what it guarantees for every input and for every behaviour of the
network.

The modules follow the program:

- `DnsMessage`, `DnsCodec`: the CAA wire format (RFC 1035 sections 4.1.1 to 4.1.4, RFC 8659 section
  4.1) as abstract messages with a serializer and a reader, and the hand-written encoder and
  offset-driven parser proved against them.
- `CaaLookup`: the choice of servers, one lookup, and the climb through the domain tree
  (RFC 8659 section 3), against arbitrary servers. `CaaZone`: the same against name servers that hold a
  zone, whether they send it whole or cut their replies.
- `CertText`: the SCT list reader (RFC 6962 section 3.3) and the colon-separated hexadecimal text.
- `Targets`: the target parser and the address it prints.
- `Report`: the records of a report; the report itself is a class that a check fills in.
- `Ciphers`, `Chain`: the version and suite probes, cipher classification, verification bookkeeping
  and chain warnings, with handshakes and crypto/x509 as arbitrary oracles.
- `Grading`, `Security`, `GradeMeaning`: findings, score and grade, and what a grade says about the
  evidence.
- `CheckRun`, `RunMeaning`: a whole check over an arbitrary outside world, and the guarantees of
  every run. `Cli`: the check command and its exit code.
- `Reported`, `RunFacts`: the same in terms of the evidence, and of the input and the outside world's
  answers, alone: what is reported exactly when, what it costs, and what a run attempts and collects.
- `Bytes`, `Text`: byte and string functions of Go's standard library, as far as they are used.

Strings that are split, sent or joined as bytes are sequences of bytes; report text is `string`.
Everything outside the program (resolver, servers, handshakes, certificates' signatures, HTTP, the
clock, random identifiers, URL and address parsing) is a field of `CheckRun.World`, of
`CaaLookup.Network` or of `Targets.Parsers` that the theorems quantify over.

## What the proofs show about the code

The code is modelled as it is. Where a property that one would expect does not hold, the exact
condition under which it does is proved, and a lemma gives the case that fails:

- The CAA query announces no buffer size (it carries no EDNS option), so a server that keeps to RFC 1035
  section 4.2.1 cuts its reply at 512 bytes, leaves records out and sets the TC flag. The parser reads
  no flag but the response code, so such a reply passes for the whole answer, and the climb returns
  part of a record set, or the parent's when nothing is left. Against such servers the relevant
  records are returned if and only if there are none or their reply fits 512 bytes
  (`CaaZone.ClimbAgainstTruncation`, `CaaZone.TruncatedAnswerYieldsPart`,
  `CaaZone.TruncatedAnswerYieldsParent`).
- Against servers that send replies of any size whole, a reply longer than the 4096-byte read buffer
  loses its end, cannot be parsed, and an error is treated like an empty answer: the relevant records are
  returned if and only if there are none or their reply fits 4096 bytes
  (`CaaZone.ClimbFindsRelevantSet`, `CaaZone.OversizedAnswerYieldsParent`).
- A host with an empty label, such as `a..b`, makes the climb look up `.b` and then `b`, which is the same
  question, and the owner can be reported as `.b`. Of hosts without spaces at the ends of labels, those
  that repeat a question are exactly those with an empty label before labels that can all be sent
  (`CaaLookup.QuestionsDifferExactly`, `CaaZone.EmptyLabelAsksTwice`).
- The address of an accepted target does not always parse back to the same target
  (`Targets.AddressFixpoint` has the exact condition). The cases that fail, one for each part of it:
  `[:80`, whose host is empty once the bracket is trimmed; any accepted input with the port option at
  65536; `[ a:80`, which leaves a space before the host; `a[b:c:d`, which keeps a bracket inside it
  (`Targets.EmptyHostIsAccepted`, `Targets.AnyPortIsAccepted`, `Targets.LeadingSpaceIsAccepted`,
  `Targets.InnerBracketIsAccepted`).
- A completed handshake replaces the warnings of name resolution instead of adding to them
  (internal/checker/check.go:106). On any other run a resolver error that quotes a host name with the
  word "intermediate" in it is reported as a problem of a certificate chain nobody sent
  (`RunMeaning.ChainFindingsOfRun`, `RunMeaning.UnreachedHostWithChainFinding`).
- A plain HTTP run with its HTTP check skipped is never marked as plain text and can be graded A+
  (`RunMeaning.SkippedPlainRunScore`).
- The plain HTTP fallback after a failed handshake (internal/checker/check.go:72-79) cannot be
  reached, and the summary "Local scan completed." cannot be given.
- A ROBOT warning brings the forward secrecy warning, whatever the server accepts, if and only if no
  suite that is probed has a name that the ROBOT check takes for static RSA and classification, which
  folds case, takes for forward secrecy (`GradeMeaning.RobotLinkExactly`). All names in Go's lists are in
  upper case, and no such name is misread (`Ciphers.UpperCaseIsNotMisread`), so the link always holds
  in practice.

The exit gate is about handshakes that present a certificate. Go's TLS client fails a handshake with an
empty certificate list, `InsecureSkipVerify` or not, and no session is ever resumed, so that premise of
`Cli.RunCheck` always holds: a run that makes the command exit with code 2 is graded F.

## Model

| member | source | states |
|---|---|---|
| DnsMessage.MessageRoundTrip | internal/checker/dns.go:188-263 | Reading a serialized message gives it back: any questions, any answers of any type and class, names ended by the root or by a pointer, any trailing bytes |
| DnsMessage.SerializationIsUnique | internal/checker/dns.go:188-263 | A byte string is the serialization of a message exactly when it reads as that message, so no two messages share one |
| DnsMessage.ProperPrefixIsUnreadable | internal/checker/dns.go:209-230 | A message without trailing bytes, cut short anywhere, cannot be read |
| DnsMessage.ParseCAARData | internal/checker/dns.go:265-278 | RDATA parses exactly when it is the framing of a record with a non-empty tag, and to that record |
| DnsCodec.MasksAreRanges | internal/checker/dns.go:248-256 | The bit masks on a length byte select the ranges that the model tests |
| DnsCodec.EncodeDNSName | internal/checker/dns.go:170-186 | Encoding succeeds exactly when the trimmed host is non-empty and each label has 1 to 63 bytes; it yields the serialized name, or the error of the first bad label |
| DnsCodec.EncodableExactly | internal/checker/dns.go:171-180 | What can be encoded is a trimmed host whose parts between dots have 1 to 63 bytes each |
| DnsCodec.SpacesThenDots | internal/checker/dns.go:171-171 | The trimmed host is the host without the white space at its ends and then without the dots at its ends |
| DnsCodec.DecodedNameIsTrimmedHost | internal/checker/dns.go:170-186 | An encoded name is two bytes longer than the trimmed host, is read back at its place before any other bytes, and its joined labels are the trimmed host |
| DnsCodec.EncodingIsInjective | internal/checker/dns.go:170-186 | Two encodable hosts encode alike exactly when they trim alike |
| DnsCodec.SkipDNSName | internal/checker/dns.go:242-263 | On every byte string and offset, skipping terminates in bounds and lands exactly where the name read at that offset ends, or fails as reading it does |
| DnsCodec.EncodedNameIsSkipped | internal/checker/dns.go:170-263 | Placed inside any larger buffer, an encoded name is skipped to its own end and nowhere else: two bytes more than the trimmed host |
| DnsCodec.BuildCAAQuery | internal/checker/dns.go:152-168 | The query is the serialization of the message with one CAA question for the host and recursion desired |
| DnsCodec.ParseCAAResponse | internal/checker/dns.go:188-240 | The offset-driven parser refines the reader of abstract messages, error for error |
| DnsCodec.ParserAcceptsExactly | internal/checker/dns.go:188-263 | The parser returns given records exactly when some message with the expected id and response code 0 or 3 serializes to the input and has those CAA records, in order; that message is unique |
| DnsCodec.AcceptedResponseSize | internal/checker/dns.go:188-263 | An accepted response has at least 12 + 5 qd + 11 an bytes, and 14 bytes for each record returned |
| DnsCodec.ReplyIsMessage | internal/checker/dns.go:152-168 | Patching a query's flags and answer count and appending answers gives the serialization of the reply message |
| DnsCodec.QueryResponseInverse | internal/checker/dns.go:152-240 | For every encodable host, id and list of at most 65535 representable records, the patched query parses back to exactly that list, and is refused under any other id |
| DnsCodec.BareQueryHasNoRecords | internal/checker/dns.go:152-240 | A query echoed back unanswered parses to no records, and is refused under any other id |
| DnsCodec.CutReplyIsRefused | internal/checker/dns.go:188-240 | A reply whose bytes are cut short anywhere is an error (a server that leaves out whole records is another matter, below) |
| DnsCodec.OnlyResponseCodeMatters | internal/checker/dns.go:195-198 | On every byte string, changing the flags without the response code changes nothing: QR and TC are never read |
| DnsCodec.ResponseCodeDecides | internal/checker/dns.go:192-240 | A readable message with flags 16 r + code is accepted for its id exactly when code is 0 or 3, for every r, and refused with that code otherwise |
| DnsCodec.CodeMaskIsRemainder | internal/checker/dns.go:195-198 | Masking the flags with 0x000f is taking the remainder by 16 |
| DnsCodec.QueryOnWire | internal/checker/dns.go:152-168 | A query byte for byte: the id, flags 0x0100, counts 1 0 0 0, the encoded name, type 257 and class 1 |
| DnsCodec.AnswerOnWire | internal/checker/dns.go:224-236 | An answer of a reply byte for byte: owner pointer 0xC00C, type 257, class 1, the time to live, the length, flag, tag length, tag and value |
| DnsCodec.RecordOfAnswer | internal/checker/dns.go:231-278 | An answer is worth a record exactly when it is of type 257 and class 1 and its data is a flag, a tag of 1 to 255 bytes after its length, and a value |
| DnsCodec.RecordsOfConcat | internal/checker/dns.go:215-239 | The records of a message are those of its answers, in order |
| DnsCodec.TruncationGoesUnnoticed | internal/checker/dns.go:188-240 | A reply that leaves records out and sets TC is accepted as exactly the records it has |
| CaaLookup.DNSServers | internal/checker/dns.go:85-113 | The servers are the first three that the lines of the file name by literal address, or the fallback: at least one and at most three |
| CaaLookup.ServerOfLine | internal/checker/dns.go:91-100 | A line of two words names a server exactly when they are "nameserver" and a literal address, in brackets or not |
| CaaLookup.ServersOfLines | internal/checker/dns.go:90-105 | The servers of a file are those of its lines, in order |
| CaaLookup.QueryCAAServer | internal/checker/dns.go:115-142 | One exchange: the query sent, at most 4096 bytes of the datagram read, the parsed records or the first error |
| CaaLookup.ExchangeOutcome | internal/checker/dns.go:115-142 | What one exchange comes to, whatever comes back: the first 4096 bytes decide |
| CaaLookup.LookupCAA | internal/checker/dns.go:70-83 | The answer of the first server that has one; an error exactly when every server fails |
| CaaLookup.LastErrorIsLeft | internal/checker/dns.go:71-82 | When every server fails, the error is the last one's |
| CaaLookup.ParentDomain | internal/checker/dns.go:280-286 | A parent is shorter, its labels are those of the host without the first, and only a one-label host has none |
| CaaLookup.LookupCAAHierarchy | internal/checker/dns.go:58-68 | The climb looks up the host and the domains above it, in order and no more than there are labels, up to the first with records, and returns those; it terminates on every host |
| CaaLookup.DomainsShrink | internal/checker/dns.go:60-60 | Those names come longest first, so that none is looked up twice |
| CaaLookup.QuestionsDifferExactly | internal/checker/dns.go:58-186 | For hosts whose labels have no white space at their ends, no question is sent for two of those names if and only if no empty label stands before labels that can all be sent |
| CaaLookup.RelevantSetIsNearest | internal/checker/dns.go:58-68 | What is returned is a successful non-empty answer at the nearest domain that has one, or nothing when none has |
| CaaZone.ServerAnswerOfReply | internal/checker/dns.go:115-142 | Against servers that answer from a zone, one exchange brings back exactly the records that the server put into its reply, or an error when the reply does not fit 4096 bytes |
| CaaZone.ReplySizeIs | internal/checker/dns.go:152-168 | A reply takes 18 bytes, the name, and 14 bytes with tag and value for each record, so that the conditions below can be checked beforehand |
| CaaZone.ClimbIsAsGoodAsLookup | internal/checker/dns.go:58-68 | Against any lookup that finds nothing where there is nothing, the climb returns the relevant records of RFC 8659 section 3 exactly when the lookup finds them at their owner |
| CaaZone.ClimbFindsRelevantSet | internal/checker/dns.go:58-142 | For every host, against servers that send replies of any size whole, the climb returns the relevant records, as the encoder reads the names, if and only if there are none or their reply fits the 4096-byte buffer |
| CaaZone.ClimbAgainstTruncation | internal/checker/dns.go:58-142 | For every host, against servers that cut their replies at 512 bytes and set TC, the climb returns the relevant records if and only if there are none or their reply fits 512 bytes |
| CaaZone.KeptRecordsPassForAll | internal/checker/dns.go:58-142 | Against such servers, the records that the first one kept of the relevant ones, if any, are returned as if they were all |
| CaaZone.SomePolicyTruncates | internal/checker/dns.go:115-142 | Every zone can be served by a server that truncates so |
| CaaZone.ServerForServes | internal/checker/dns.go:115-142 | For every zone and every choice of records to keep there are servers that decode the query and answer it so: the theorems are about real exchanges |
| CaaZone.OversizedAnswerYieldsParent | internal/checker/dns.go:58-142 | A zone where the whole reply does not fit the buffer and the climb returns the parent's records |
| CaaZone.TruncatedAnswerYieldsPart | internal/checker/dns.go:58-142 | A zone and a truncating server where the climb returns one record of two |
| CaaZone.TruncatedAnswerYieldsParent | internal/checker/dns.go:58-142 | A zone and a truncating server where the climb returns the parent's records |
| CaaZone.EmptyLabelAsksTwice | internal/checker/dns.go:58-186 | From `a..b` the climb asks about `b` twice and reports what it holds under `.b` |
| CertText.CountSCTList | internal/checker/cert.go:284-305 | The count is the number of items read in the window that is both declared and present |
| CertText.CountIsLongestList | internal/checker/cert.go:284-305 | On any bytes, the items counted are the longest list of length-prefixed items that starts the window |
| CertText.SerializedListCounts | internal/checker/cert.go:284-305 | A serialized list of k items counts k, whatever follows |
| CertText.TruncationLowersCount | internal/checker/cert.go:284-305 | Cutting the input short never raises the count |
| CertText.CountFitsWindow | internal/checker/cert.go:284-305 | Two bytes per counted item and their sizes together fit what is declared and present |
| CertText.ColonHex | internal/checker/cert.go:123-133 | The text is the upper-case digit pairs of the bytes, separated by colons |
| CertText.ColonHexLength | internal/checker/cert.go:123-133 | n > 0 bytes give 3n - 1 characters |
| CertText.ColonHexDigits | internal/checker/cert.go:123-133 | Each byte is two digits of 0123456789ABCDEF, the higher first, with a colon after it but for the last |
| CertText.ColonHexRoundTrip | internal/checker/cert.go:123-133 | Dropping the colons and decoding the digits gives the bytes back |
| CertText.ColonHexIsInjective | internal/checker/cert.go:123-133 | Different bytes have different texts |
| Bytes.TrimExactly | internal/checker/dns.go:171-171 | Trimming takes bytes of the cutset off both ends and nothing else |
| Bytes.TrimSpaceExactly | internal/checker/parse.go:13-13 | Trimming space takes the white space off both ends and nothing else |
| Bytes.SpacesAreUnicode | internal/checker/parse.go:13-13 | White space is exactly that of `unicode.IsSpace`, in UTF-8 |
| Text.AsciiCases | internal/checker/tls.go:215-215 | On ASCII only the 26 letters have two cases |
| Text.ContainsExactly | internal/checker/security.go:79-79 | Containing a text is having it as a part |
| Text.DecimalReadsBack | internal/checker/verify.go:127-131 | An index is printed as its decimal digits |
| Targets.AllDigits | internal/checker/parse.go:120-128 | Non-empty and digits only |
| Targets.ParsePortReads | internal/checker/parse.go:112-118 | A text parses to a port exactly when it is a run of digits, after a plus sign at most, worth that number, and the number is between 1 and 65535 |
| Targets.AtoiOfItoa | internal/checker/parse.go:67-67 | A printed number reads back as itself |
| Targets.ParseTarget | internal/checker/parse.go:12-69 | The step-by-step parser computes the target that the input stands for, or its error |
| Targets.AcceptedTarget | internal/checker/parse.go:18-68 | An accepted target has scheme http or https, a positive port, a host without brackets at its ends, and the address that joins the two |
| Targets.URLTarget | internal/checker/parse.go:19-47 | A URL is accepted exactly with scheme http or https, a host and a port that parses or none; port 80 for http and 443 for https unless it or the option names one; the path is "/" at least, with the query after "?" |
| Targets.TextTarget | internal/checker/parse.go:48-61 | Other input is https with path "/", on port 443 unless it or the option names one |
| Targets.BracketedAddress | internal/checker/parse.go:86-93 | A literal address in brackets is accepted, and nothing else in brackets is |
| Targets.SchemeExactly | internal/checker/parse.go:19-19 | Input is taken for a URL exactly when it has "://" in it |
| Targets.LooseOfPlain | internal/checker/parse.go:71-110 | A colon-free host joined with a port splits back into both, through either branch that can take it |
| Targets.LooseOfBracketed | internal/checker/parse.go:71-110 | A bracketed host joined with a port splits back into both exactly when the host has no bracket in it |
| Targets.AddressFixpoint | internal/checker/parse.go:12-118 | Parsing an accepted target's address gives back its host, port, kind and address if and only if the host is non-empty, the port is at most 65535, and the host has no bracket (when bracketed) or leading space (when not) |
| Targets.EmptyHostIsAccepted | internal/checker/parse.go:62-67 | `[:80` is accepted with an empty host and does not read back |
| Targets.AnyPortIsAccepted | internal/checker/parse.go:59-61 | Whatever is accepted is accepted with port 65536 from the option, and does not read back |
| Targets.LeadingSpaceIsAccepted | internal/checker/parse.go:65-104 | `[ a:80` is accepted with a space before the host and does not read back |
| Targets.InnerBracketIsAccepted | internal/checker/parse.go:65-109 | `a[b:c:d` is accepted with a bracket inside the host and does not read back |
| Ciphers.ProbeTLSVersions | internal/checker/tls.go:117-152 | Four entries, TLS 1.0 to 1.3 in order, each supported, with the negotiated suite, exactly when the handshake limited to 0x0301 to 0x0304 completes, else with the reason |
| Ciphers.CipherSuiteSupportsVersion | internal/checker/tls.go:201-211 | Whether the version is among those the suite lists |
| Ciphers.ProbeTLSCiphers | internal/checker/tls.go:154-199 | For any handshakes, one classified entry per supported pair of version and suite, in order |
| Ciphers.ProbeSuites | internal/checker/tls.go:173-196 | The inner loop: one entry for each suite that supports the version |
| Ciphers.CipherVersions | internal/checker/tls.go:155-162 | The probed versions are TLS 1.0, 1.1 and 1.2, as 0x0301, 0x0302 and 0x0303 |
| Ciphers.PairsAreExact | internal/checker/tls.go:154-176 | The probed pairs are exactly those of a probed version and a listed suite that supports it |
| Ciphers.PairsAreDistinct | internal/checker/tls.go:154-176 | No pair is probed twice when no suite is listed twice |
| Ciphers.ClassifiedByName | internal/checker/tls.go:213-239 | Each mark is a part of the name, in any case; weak means marked insecure, RC4 or triple DES; modern means none of these, TLS 1.2, no CBC and forward secrecy |
| Ciphers.ModernMeansClean | internal/checker/tls.go:213-239 | A classified entry is modern exactly when it is neither weak nor legacy as the analysis counts and has forward secrecy |
| Ciphers.StaticRSALacksForwardSecrecy | internal/checker/tls.go:213-239 | A classified static RSA suite has forward secrecy exactly when its name is misread |
| Ciphers.UpperCaseIsNotMisread | internal/checker/tls.go:213-239 | A name in upper case is never misread |
| Ciphers.MixedCaseStaticRSA | internal/checker/security.go:191-195 | Some name would be misread, though none that Go lists |
| Chain.ChainWarnings | internal/checker/verify.go:116-136 | The warnings, in order: a lone leaf of a failed chain, then for each certificate that it is a superfluous root and that its signature does not check |
| Chain.WarningsName | internal/checker/verify.go:127-131 | A chain warning names the certificates by index and label, and the reason |
| Chain.WarningsCountDefects | internal/checker/verify.go:116-136 | There is one warning per defect, in signature checks alone: the lone leaf of a failed chain that its own key did not sign, certificates after the leaf that their own key signed, and certificates that the next one's key did not sign |
| Chain.VerifyPeerCertificates | internal/checker/verify.go:10-87 | Every flag, error and warning of the verification, from the answers of crypto/x509 |
| Chain.FlagsAnswer | internal/checker/verify.go:10-74 | What each flag answers: the leaf's own key checks its signature, the clock is past a limit, the path builds without and with the name, the host name matches |
| Chain.NameToVerify | internal/checker/tls.go:70-81 | No name when disabled, else the verify name, the server name or the host, the first there is |
| Chain.ErrorsInOrder | internal/checker/verify.go:30-77 | The errors word for word: roots, chain, hostname, and the full check's reason unless an entry before gives it |
| Chain.ErrorsOfVerification | internal/checker/verify.go:28-77 | The reasons of these errors are the answers about the custom roots, the path, the host name and the path with the name |
| Chain.WarningsAreCounted | internal/checker/verify.go:28-85 | One warning for each chain defect, one for a missing system store and one for a disabled host name check |
| Chain.FailureHasReason | internal/checker/verify.go:69-77 | A chain is unverified exactly when the full check failed, and then its reason is among the errors |
| Chain.WarningsMentionDefects | internal/checker/verify.go:10-136 | Of all the warnings of a verification, those that the analysis takes for chain problems are as many as the chain has defects |
| Grading.ScoreFindings | internal/checker/security.go:224-245 | The loop computes 100 less the penalties, but not below 0 |
| Grading.ScoreClosedForm | internal/checker/security.go:224-245 | The penalty is 40 c + 25 h + 10 m + 5 l over failures and warnings, and the score is in 0..100 |
| Grading.GradeScore | internal/checker/security.go:247-267 | F for a critical failure, else the band of the score |
| Grading.GradeFromTallies | internal/checker/security.go:224-267 | The grade from the numbers of failures and warnings of each severity: F with a critical failure; else by 40 c + 25 h + 10 m + 5 l, up to 5, 10, 20, 30, 40 or more |
| Grading.SummaryForScore | internal/checker/security.go:269-290 | The summary by failures first, then warnings, then score |
| Grading.SummaryFromFindings | internal/checker/security.go:269-290 | The summary speaks of failures exactly when there is one, of warnings exactly when there is one and no failure, and of no issue exactly when there is neither |
| Grading.ReportIgnoresOrder | internal/checker/security.go:224-290 | Score, grade and summary are the same for every order of the findings |
| Grading.InsertingNeverImproves | internal/checker/security.go:224-267 | Inserting a finding anywhere raises neither score nor grade |
| Grading.SummaryNeverCompleted | internal/checker/security.go:269-290 | The last summary text is never given |
| Grading.TopGrades | internal/checker/security.go:224-267 | Where every failure or warning costs at least ten, A+ means none, and score 100, and A means a single medium one |
| Security.AddProtocolFindings | internal/checker/security.go:100-119 | Appends the protocol findings to those before |
| Security.AddCipherFindings | internal/checker/security.go:121-156 | Appends the cipher findings, decided by whether some accepted suite is weak, legacy or without forward secrecy |
| Security.CountAccepted | internal/checker/security.go:126-140 | The counters are positive exactly when some accepted suite is weak, legacy or without forward secrecy |
| Security.AddHTTPHeaderFindings | internal/checker/security.go:158-166 | Appends one finding per header check that is neither pass nor info |
| Security.AddDNSFindings | internal/checker/security.go:168-180 | Appends the CAA and address findings for a resolved name |
| Security.AddVulnerabilityFindings | internal/checker/security.go:182-204 | Appends the BEAST and ROBOT findings and those that are not tested |
| Security.TLSVersionSupported | internal/checker/security.go:206-213 | Whether some entry for the version is supported |
| Security.SupportedCipherWhere | internal/checker/security.go:215-222 | Whether some accepted suite satisfies the predicate |
| Security.AddChainFindings | internal/checker/security.go:77-83 | Appends one finding per warning that mentions an intermediate or the chain order |
| Security.AnalyzeSecurity | internal/checker/security.go:8-98 | The analysis of a report is its findings with their score, grade and summary; of no report, nothing |
| GradeMeaning.FindingsByPart | internal/checker/security.go:8-98 | A finding is in the report exactly when the one analyzer that its id belongs to gives it |
| GradeMeaning.NoNearPerfectGap | internal/checker/security.go:8-98 | For every evidence: no failure or warning costs less than ten; A+ exactly without any, exactly at score 100; A exactly with a single one, a medium one |
| GradeMeaning.AcceptingMoreNeverHelps | internal/checker/security.go:100-156 | Of two reports that differ in that the second accepts more suites or obsolete versions, the second has no higher score and no better grade |
| GradeMeaning.ProbedInventoryIsCoherent | internal/checker/security.go:121-156 | Over any probed inventory the cipher findings are all passes exactly when every accepted suite is modern |
| GradeMeaning.BeastCapsGrade | internal/checker/security.go:105-153 | A BEAST warning comes with the TLS 1.0 and legacy suite findings, hence a score of at most 55 and grade F |
| GradeMeaning.RobotCapsGrade | internal/checker/security.go:129-200 | On a classified inventory without misread names a ROBOT warning comes with the forward secrecy warning, hence a score of at most 80 and no grade above B |
| GradeMeaning.RobotLinkExactly | internal/checker/security.go:141-195 | For any list of suites: whatever outcome each probe has, a ROBOT warning comes with the forward secrecy warning, if and only if no suite that supports a probed version has a misread name |
| GradeMeaning.ChainFindingsFollowWarnings | internal/checker/security.go:77-83 | One chain finding per warning that mentions the chain, ten points less for each |
| GradeMeaning.InvalidMeansF | internal/checker/security.go:26-41 | A failed handshake, or a presented chain that does not verify, is graded F |
| GradeMeaning.PlainHTTPCapsGrade | internal/checker/security.go:23-25 | A report on plain HTTP scores at most 75 and is graded C, D or F |
| Reported.ConnectionReported | internal/checker/security.go:23-34 | A connection finding is in the report exactly when the evidence calls for it |
| Reported.TrustReported | internal/checker/security.go:35-54 | Each trust finding is in the report exactly when its flag is, of a verification that was made |
| Reported.LeafReported | internal/checker/security.go:56-75 | Each finding on the leaf exactly when it is due: 0 to 14 and 15 to 30 days, SHA1 or MD5 in any case, an RSA key of 1 to 2047 bits, no revocation endpoints, no SCT |
| Reported.ProtocolReported | internal/checker/security.go:100-119 | Each protocol finding exactly when the versions found call for it |
| Reported.CiphersReported | internal/checker/security.go:121-156 | Each cipher finding exactly when some accepted suite calls for it, or none does |
| Reported.BeastReported | internal/checker/security.go:184-190 | BEAST is warned of exactly with TLS 1.0 supported and a CBC suite accepted under it |
| Reported.RobotReported | internal/checker/security.go:191-198 | ROBOT is warned of exactly with an accepted suite that is static RSA by name |
| Reported.UntestedReported | internal/checker/security.go:200-203 | POODLE, Heartbleed and Ticketbleed are always said to be not tested |
| Reported.HeadersReported | internal/checker/security.go:158-166 | A header check is reported exactly when neither passed nor informational: a failure as high, a warning as medium, else as information |
| Reported.DNSReported | internal/checker/security.go:168-180 | CAA and address findings exactly when a name was resolved to what they say |
| Reported.ScoreOfEvidence | internal/checker/security.go:8-98 | The score of any report in closed form over its evidence |
| Reported.LongerKeyNeverHurts | internal/checker/security.go:68-70 | Of two reports alike but for the length of the RSA key, the longer key scores no less, the same unless they lie on either side of 2048 bits, and otherwise 25 more unless the floor hides it |
| Reported.MoreDaysNeverHurt | internal/checker/security.go:58-62 | Of two reports alike but for the days left, more days score no less, and the same between the limits of 14 and 30 |
| Reported.WorseCertificateNeverHelps | internal/checker/security.go:35-75 | A verdict and a leaf certificate that are worse in every respect never make a report score more |
| CheckRun.CheckDNS | internal/checker/dns.go:14-56 | Fills in the DNS part of the report and adds at most one warning |
| CheckRun.CheckTLS | internal/checker/check.go:85-114 | Fills in the TLS part, certificates and verification, and replaces the warnings once connected |
| CheckRun.CheckHTTP | internal/checker/check.go:116-179 | Fills in the HTTP part from HEAD, or from GET should HEAD fail in time, and records why when both fail |
| CheckRun.Check | internal/checker/check.go:14-83 | For every outside world, a check refuses its input with the first error, or returns a new report that holds exactly what the run collects, its errors and its analysis |
| RunFacts.Refusals | internal/checker/check.go:16-31 | Why a check does not start, in order: a version limit that cannot be read, limits the wrong way round, the target |
| RunFacts.HandshakeDecides | internal/checker/check.go:53-102 | TLS is attempted, and is the protocol, exactly when the scheme is https or TLS is forced; it connects exactly when the one handshake for the name offered and the version limits does, and keeps the reason when not |
| RunFacts.ConnectionCollected | internal/checker/check.go:97-106 | What a completed handshake leaves in the report |
| RunFacts.TrustOfRun | internal/checker/verify.go:23-77 | Trusted, self-signed, expired, not yet valid and host name mismatch are reported of a connected run exactly by the answers of crypto/x509 and the clock |
| RunFacts.ProperChainIsClean | internal/checker/verify.go:116-136 | A chain that verifies, where no certificate is signed by its own key and each by the next one's, leads to no chain finding and no self-signed finding |
| RunFacts.VersionsOfRun | internal/checker/check.go:108-110 | The versions found supported are exactly those whose handshake completes, if they are probed |
| RunFacts.EntriesOfRun | internal/checker/check.go:111-113 | An entry is in the inventory exactly when suites are scanned and it is that of a probed version and a listed suite that supports it |
| RunFacts.BeastOfRun | internal/checker/security.go:184-190 | A run warns of BEAST exactly when the server completes a handshake under TLS 1.0 and one under TLS 1.0 with a suite that has _CBC_ in its name |
| RunFacts.ModernOfRun | internal/checker/tls.go:213-239 | An accepted TLS 1.2 suite is modern exactly when it is not marked insecure, has _ECDHE_ or _DHE_ in its name, and none of _RC4_, _3DES_ and _CBC_ |
| RunFacts.SuitesOfRun | internal/checker/security.go:121-156 | Weak, legacy, without forward secrecy and static RSA, in terms of the handshakes that complete and the names of their suites |
| RunFacts.HTTPOfRun | internal/checker/check.go:116-178 | When a run asks over HTTP, what it asks for, and which of the two answers counts |
| RunFacts.ResolutionOfRun | internal/checker/dns.go:14-56 | What name resolution puts into the report, answer by answer |
| RunFacts.WarningsWithoutConnection | internal/checker/dns.go:26-47 | The warnings of a run that does not connect, word for word |
| RunFacts.ErrorsInOrderOfRun | internal/checker/check.go:69-168 | The errors of a run, word for word and in order |
| RunFacts.InvalidExactly | cmd/sslcertcheck/main.go:119-121 | A target is invalid exactly when a handshake is due and none completes that presents certificates which verify for the name |
| RunMeaning.RunGraph | internal/checker/check.go:48-114 | Connected implies attempted; protocol HTTP means that TLS was not attempted; what was requested, verified and probed follows |
| RunMeaning.CleanRun | internal/checker/check.go:69-168 | A run has no errors exactly when its handshake, if any, and its request, if any, succeeded |
| RunMeaning.FallbackNeverDue | internal/checker/check.go:72-79 | No accepted target meets the condition of the plain HTTP fallback |
| RunMeaning.PlainRunCaps | internal/checker/check.go:53-62 | A run reports plain HTTP exactly when the scheme is http, TLS is not forced and the HTTP check is not skipped, and then scores at most 75 and grades C, D or F |
| RunMeaning.SkippedPlainRunScore | internal/checker/check.go:53-62 | Without its HTTP check a plain run scores 100 but for name resolution |
| RunMeaning.ChainFindingsOfRun | internal/checker/check.go:85-106 | On a connected run with certificates the chain findings are as many as the chain's defects, on any other none but for a resolver error in the same words; the score drops by ten for each, down to 0 |
| RunMeaning.UnreachedHostWithChainFinding | internal/checker/dns.go:41-47 | A resolver error that gives an unreached host a chain finding |
| RunMeaning.InvalidRunsFail | cmd/sslcertcheck/main.go:119-121 | An invalid run has a critical handshake or trust failure if and only if it is not a completed handshake without certificates, and is then graded F |
| RunMeaning.EmptyHandshakeIsPerfect | internal/checker/verify.go:18-21 | That exception, which crypto/tls rules out, would be graded A+ with the other checks skipped: the premise of the exit gate is needed |
| RunMeaning.AcceptingServerNeverFaresBetter | internal/checker/check.go:108-113 | Of two servers alike but for the handshakes they complete when probed, the more accepting one never fares better |
| RunMeaning.CipherPassesMeanModern | internal/checker/check.go:111-113 | On a connected run that probes any suite, the cipher findings all pass exactly when every handshake that completes, for a probed version and a suite that supports it, is one that is classified as modern |
| RunMeaning.RobotRunCaps | internal/checker/security.go:191-195 | Where no probed suite's name is misread, a ROBOT warning caps every run's score at 80 and its grade at B |
| RunMeaning.CAAReported | internal/checker/dns.go:55-55 | Against servers that send the zone whole, a run shows the relevant CAA records if and only if their reply fits the buffer; it then reports CAA as present exactly when the host or a domain above it holds records, and never when none does |
| RunMeaning.CAAReportedThroughTruncation | internal/checker/dns.go:55-55 | The same against servers that truncate, with the 512-byte limit in place of the buffer |
| Cli.RunCheck | cmd/sslcertcheck/main.go:72-150 | One report per target in order, up to the first refused; exit code 1 exactly when there is no target, one is refused or the output cannot be written in the format asked for, 2 exactly when there is none of that, the gate is on and some run is invalid, else 0; and after 2, if every completed handshake presents a certificate, some report is graded F |
| Cli.InvalidResultIsF | cmd/sslcertcheck/main.go:112-148 | Among complete reports of which one is invalid, one is graded F, given that completed handshakes present certificates |

## Left out

- Chain.VerifyPeerCertificates: the verified chains converted for display are not part of the model; they come from crypto/x509 and nothing reads them.
- CheckRun.CheckTLS: the negotiated version, suite and ALPN and the PEM bodies are reported but never read by a check, and are not part of the model.
- CheckRun.CheckHTTP: the status text, server, content type, redirect and header fields are reported but never read by a check, and are not part of the model.
- CheckRun.Check: the echoed input, the time of the check and its duration are not part of the report modelled.
- RunMeaning.EmptyHandshakeIsPerfect: its premise is a handshake that Go's TLS client refuses to complete.
- Sockets, TLS handshakes, HTTP requests, DNS transport, timeouts, contexts and the clock: their outcomes are arbitrary values of the model's outside world. A function answers the same question the same way, so two identical exchanges within one run (a server listed twice in the configuration) have one outcome.
- crypto/x509 path building, signature checks, hashes and PEM parsing, and the conversion of certificates and verified chains for display: oracles, or fields of the certificate record.
- `url.Parse` and `net.ParseIP`: arbitrary functions. The address theorem assumes only that the host name of a URL has no slash in it.
- The resolver configuration is read once per run: it is the same for all lookups of a climb.
- `tlsVersionValue` and `tlsVersionName`: finite tables; the former is an arbitrary function from option text to a version or an error.
- internal/checker/http_headers.go: the list of header checks is arbitrary, which is all that the score properties need.
- internal/checker/kubernetes.go, internal/checker/render.go, internal/gui, flag parsing: user interface and file walking.
- The titles, fixed descriptions and recommendations of findings: an id stands for them; the part of a description that depends on the evidence is kept.
- `shortError`'s replacement of newlines and cut at 180 bytes: error texts are taken as already shortened.
- `strings.ToLower` and `strings.ToUpper` map letters outside ASCII only where the result is an ASCII letter; the texts searched for are ASCII.
- The limit of 255 bytes on a whole name (RFC 1035 section 2.3.4): the encoder does not enforce it, so neither does the model.
- The ASN.1 OCTET STRING around an embedded SCT list: the caller passes the extension value with it (internal/checker/cert.go:276-278), while the properties are about the bare list of RFC 6962.
- HTTP requests are described by URL, TLS server name and host header; the User-Agent header is not.
