/** The check command and its exit code (cmd/sslcertcheck/main.go). */
module Cli {
  import opened Bytes
  import opened Report
  import opened Text
  import opened Security
  import opened CheckRun
  import opened RunMeaning

  datatype CommandError =
    | TargetRequired
    | CheckFailed(error: CheckError)
    | EncodingFailed(text: string)
    | UnsupportedFormat
    | InvalidExit

  /** `exitCode`, and 0 when there is no error. */
  function ExitCode(err: Option<CommandError>): nat {
    match err
    case None => 0
    case Some(InvalidExit) => 2
    case Some(_) => 1
  }

  /** `r` reports on `target`. */
  ghost predicate ReportsOn(r: Result, target: bytes, opt: Options, w: World)
    reads r
  {
    hide Reports;
    Admitted(target, opt, w).Ok? && Reports(r, Admitted(target, opt, w).value, opt, w)
  }

  /** `results` report on the first targets, in order. */
  ghost predicate AreReports(results: seq<Result>, targets: seq<bytes>, opt: Options, worlds: nat -> World)
    reads set r | r in results
  {
    hide ReportsOn;
    |results| <= |targets| && forall i | 0 <= i < |results| :: ReportsOn(results[i], targets[i], opt, worlds(i))
  }

  /** A check of `target` finds it invalid. */
  ghost predicate InvalidTarget(target: bytes, opt: Options, w: World) {
    hide EvidenceOf;
    Admitted(target, opt, w).Ok? && Invalid(EvidenceOf(Admitted(target, opt, w).value, opt, w))
  }

  /** Every target, each in its own state of the world, is one that a check accepts. */
  ghost predicate AllAdmitted(targets: seq<bytes>, opt: Options, worlds: nat -> World) {
    forall i | 0 <= i < |targets| :: Admitted(targets[i], opt, worlds(i)).Ok?
  }

  ghost predicate AnyInvalid(targets: seq<bytes>, opt: Options, worlds: nat -> World) {
    hide InvalidTarget;
    exists i | 0 <= i < |targets| :: InvalidTarget(targets[i], opt, worlds(i))
  }

  lemma InvalidReport(r: Result, target: bytes, opt: Options, w: World)
    requires ReportsOn(r, target, opt, w)
    ensures InvalidTarget(target, opt, w) <==> r.tls.attempted && (!r.tls.connected || !r.verification.verified)
  {
    hide EvidenceOf, ErrorsOfRun, Analysis, Admitted;
  }

  /** Whatever handshake completes presents at least one certificate, as Go's
      TLS client sees to: it fails a handshake with an empty certificate list. */
  ghost predicate PresentsCertificates(target: bytes, opt: Options, w: World) {
    var t := Admitted(target, opt, w);
    t.Ok? && Connected(t.value, opt, w) ==> Peers(t.value, opt, w) != []
  }

  ghost predicate AllPresent(targets: seq<bytes>, opt: Options, worlds: nat -> World) {
    forall i | 0 <= i < |targets| :: PresentsCertificates(targets[i], opt, worlds(i))
  }

  lemma InvalidReportIsF(r: Result, target: bytes, opt: Options, w: World)
    requires ReportsOn(r, target, opt, w) && InvalidTarget(target, opt, w) && PresentsCertificates(target, opt, w)
    ensures r.security.localGrade == F
  {
    hide EvidenceOf, ErrorsOfRun, Analysis, Admitted, Invalid, Connected, Peers;
    InvalidRunsFail(Admitted(target, opt, w).value, opt, w);
  }

  /** Among the reports on targets of which some are invalid, some is graded F. */
  lemma InvalidResultIsF(results: seq<Result>, targets: seq<bytes>, opt: Options, worlds: nat -> World)
    requires |results| == |targets| && AnyInvalid(targets, opt, worlds) && AreReports(results, targets, opt, worlds)
    ensures AllPresent(targets, opt, worlds) ==> exists r | r in results :: r.security.localGrade == F
  {
    hide ReportsOn, InvalidTarget, PresentsCertificates;
    var i :| 0 <= i < |targets| && InvalidTarget(targets[i], opt, worlds(i));
    if AllPresent(targets, opt, worlds) {
      InvalidReportIsF(results[i], targets[i], opt, worlds(i));
      assert results[i] in results;
    }
  }

  /** The result of writing `results` out in the format asked for. */
  function Written(format: string, jsonFailure: Option<string>): Option<CommandError> {
    if ToLower(format) == "json" then (if jsonFailure.Some? then Some(EncodingFailed(jsonFailure.value)) else None)
    else if ToLower(format) == "text" || format == "" then None
    else Some(UnsupportedFormat)
  }

  /** Reports on the targets, in order, up to the first that is refused, and the verdict on them. */
  method RunCheck(targets: seq<bytes>, opt: Options, format: string, jsonFailure: Option<string>, failOnInvalid: bool,
                  worlds: nat -> World)
    returns (results: seq<Result>, err: Option<CommandError>)
    ensures AreReports(results, targets, opt, worlds)
    ensures AllAdmitted(targets, opt, worlds) ==> |results| == |targets|
    ensures err.Some? && err.value.CheckFailed? <==> !AllAdmitted(targets, opt, worlds)
    ensures var style := ToLower(format);
            var printed := (style == "json" && jsonFailure == None) || style == "text" || style == "";
            var completed := targets != [] && AllAdmitted(targets, opt, worlds) && printed;
            var gated := failOnInvalid && AnyInvalid(targets, opt, worlds);
            && (ExitCode(err) == 0 <==> completed && !gated)
            && (ExitCode(err) == 1 <==> !completed)
            && (ExitCode(err) == 2 <==> completed && gated)
    ensures ExitCode(err) == 2 && AllPresent(targets, opt, worlds) ==>
      exists r | r in results :: r.security.localGrade == F
  {
    hide Admitted, Reports, EvidenceOf, Invalid, PresentsCertificates;
    results := [];
    if |targets| == 0 {
      return results, Some(TargetRequired);
    }
    var anyInvalid := false;
    hide InvalidTarget;
    for i := 0 to |targets|
      invariant |results| == i
      invariant forall k | 0 <= k < i :: Admitted(targets[k], opt, worlds(k)).Ok?
      invariant forall k | 0 <= k < i :: ReportsOn(results[k], targets[k], opt, worlds(k))
      invariant anyInvalid <==> exists k | 0 <= k < i :: InvalidTarget(targets[k], opt, worlds(k))
    {
      var r := Check(targets[i], opt, worlds(i));
      if r.Err? {
        return results, Some(CheckFailed(r.error));
      }
      assert ReportsOn(r.value, targets[i], opt, worlds(i));
      var result := r.value;
      results := results + [result];
      InvalidReport(result, targets[i], opt, worlds(i));
      if result.tls.attempted && (!result.tls.connected || !result.verification.verified) {
        anyInvalid := true;
      }
    }
    var failure := Written(format, jsonFailure);
    if failure.Some? {
      return results, failure;
    }
    if failOnInvalid && anyInvalid {
      InvalidResultIsF(results, targets, opt, worlds);
      return results, Some(InvalidExit);
    }
    return results, None;
  }
}
