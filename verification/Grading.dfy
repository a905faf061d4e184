/** From findings to a score, a grade and a summary (internal/checker/security.go:224-301). */
module Grading {
  import opened Report

  // ----- Score -----

  /** Only failures and warnings cost anything. */
  predicate Counts(f: SecurityFinding) {
    f.status.Fail? || f.status.Warn?
  }

  function Weight(s: Severity): nat {
    match s
    case Critical => 40
    case High => 25
    case Medium => 10
    case Low => 5
    case Info => 0
  }

  function Cost(f: SecurityFinding): nat {
    if Counts(f) then Weight(f.severity) else 0
  }

  function Penalty(fs: seq<SecurityFinding>): nat {
    if fs == [] then 0 else Cost(fs[0]) + Penalty(fs[1..])
  }

  function Score(fs: seq<SecurityFinding>): int {
    if Penalty(fs) > 100 then 0 else 100 - Penalty(fs)
  }

  method ScoreFindings(findings: seq<SecurityFinding>) returns (score: int)
    ensures score == Score(findings)
  {
    score := 100;
    assert findings[0..] == findings;
    for i := 0 to |findings|
      invariant score - Penalty(findings[i..]) == 100 - Penalty(findings)
    {
      var finding := findings[i];
      assert findings[i..][1..] == findings[i + 1..];
      if !finding.status.Fail? && !finding.status.Warn? {
        continue;
      }
      match finding.severity {
        case Critical => score := score - 40;
        case High => score := score - 25;
        case Medium => score := score - 10;
        case Low => score := score - 5;
        case Info =>
      }
    }
    if score < 0 {
      score := 0;
    }
  }

  // ----- Grade and summary -----

  predicate IsCriticalFailure(f: SecurityFinding) {
    f.status.Fail? && f.severity.Critical?
  }

  predicate HasCriticalFailure(fs: seq<SecurityFinding>) {
    exists f | f in fs :: IsCriticalFailure(f)
  }

  /** The grade whose band holds `score`. */
  function Band(score: int): Grade {
    if score >= 95 then APlus
    else if score >= 90 then A
    else if score >= 80 then B
    else if score >= 70 then C
    else if score >= 60 then D
    else F
  }

  function GradeOf(score: int, fs: seq<SecurityFinding>): Grade {
    if HasCriticalFailure(fs) then F else Band(score)
  }

  method GradeScore(score: int, findings: seq<SecurityFinding>) returns (grade: Grade)
    ensures grade == GradeOf(score, findings)
  {
    for i := 0 to |findings|
      invariant forall f | f in findings[..i] :: !IsCriticalFailure(f)
    {
      var finding := findings[i];
      if finding.status.Fail? && finding.severity.Critical? {
        assert IsCriticalFailure(finding);
        return F;
      }
    }
    assert findings[..|findings|] == findings;
    if {
      case score >= 95 => grade := APlus;
      case 90 <= score < 95 => grade := A;
      case 80 <= score < 90 => grade := B;
      case 70 <= score < 80 => grade := C;
      case 60 <= score < 70 => grade := D;
      case score < 60 => grade := F;
    }
  }

  function SummaryOf(score: int, fs: seq<SecurityFinding>): Summary {
    if exists f | f in fs :: f.status.Fail? then FoundFailures
    else if exists f | f in fs :: f.status.Warn? then FoundWarnings
    else if score >= 90 then NoMajorIssues
    else Completed
  }

  method SummaryForScore(score: int, findings: seq<SecurityFinding>) returns (summary: Summary)
    ensures summary == SummaryOf(score, findings)
  {
    var failures, warnings := 0, 0;
    for i := 0 to |findings|
      invariant failures >= 0 && warnings >= 0
      invariant failures > 0 <==> exists f | f in findings[..i] :: f.status.Fail?
      invariant warnings > 0 <==> exists f | f in findings[..i] :: f.status.Warn?
    {
      var finding := findings[i];
      assert findings[..i + 1] == findings[..i] + [finding];
      if finding.status.Fail? {
        failures := failures + 1;
      }
      if finding.status.Warn? {
        warnings := warnings + 1;
      }
    }
    assert findings[..|findings|] == findings;
    if failures > 0 {
      return FoundFailures;
    }
    if warnings > 0 {
      return FoundWarnings;
    }
    if score >= 90 {
      return NoMajorIssues;
    }
    return Completed;
  }

  // ----- Closed form -----

  /** The number of counting findings of severity `s`. */
  function Tally(fs: seq<SecurityFinding>, s: Severity): nat {
    if fs == [] then 0
    else (if (fs[0].status.Fail? || fs[0].status.Warn?) && fs[0].severity == s then 1 else 0) + Tally(fs[1..], s)
  }

  lemma {:induction false} ScoreClosedForm(fs: seq<SecurityFinding>)
    ensures Penalty(fs) == 40 * Tally(fs, Critical) + 25 * Tally(fs, High) + 10 * Tally(fs, Medium) + 5 * Tally(fs, Low)
    ensures 0 <= Score(fs) <= 100
  {
    if fs != [] { ScoreClosedForm(fs[1..]); }
  }

  /** What the failures and warnings of `fs` cost, by their severities. */
  function Lost(fs: seq<SecurityFinding>): nat {
    40 * Tally(fs, Critical) + 25 * Tally(fs, High) + 10 * Tally(fs, Medium) + 5 * Tally(fs, Low)
  }

  /** The grade, from the numbers of failures and warnings of each severity. */
  lemma GradeFromTallies(fs: seq<SecurityFinding>)
    ensures var grade := GradeOf(Score(fs), fs);
            if exists f | f in fs :: f.status == Fail && f.severity == Critical then grade == F
            else
              && (grade == APlus <==> Lost(fs) <= 5)
              && (grade == A <==> 5 < Lost(fs) <= 10)
              && (grade == B <==> 10 < Lost(fs) <= 20)
              && (grade == C <==> 20 < Lost(fs) <= 30)
              && (grade == D <==> 30 < Lost(fs) <= 40)
              && (grade == F <==> 40 < Lost(fs))
  {
    ScoreClosedForm(fs);
  }

  /** The summary, from the worst there is among the findings. */
  lemma SummaryFromFindings(fs: seq<SecurityFinding>)
    ensures var summary := SummaryOf(Score(fs), fs);
            && (summary == FoundFailures <==> exists f | f in fs :: f.status == Fail)
            && (summary == FoundWarnings <==>
                  (forall f | f in fs :: f.status != Fail) && exists f | f in fs :: f.status == Warn)
            && (summary == NoMajorIssues <==> forall f | f in fs :: f.status != Fail && f.status != Warn)
  {
    if forall f | f in fs :: !Counts(f) {
      NoCountsNoPenalty(fs);
    }
  }

  lemma {:induction false} PenaltyConcat(a: seq<SecurityFinding>, b: seq<SecurityFinding>)
    ensures Penalty(a + b) == Penalty(a) + Penalty(b)
  {
    if a == [] {
      assert a + b == b;
    } else {
      assert (a + b)[1..] == a[1..] + b;
      PenaltyConcat(a[1..], b);
    }
  }

  lemma RemoveAt(fs: seq<SecurityFinding>, i: nat)
    requires i < |fs|
    ensures var rest := fs[..i] + fs[i + 1..];
            Penalty(fs) == Cost(fs[i]) + Penalty(rest) && multiset(fs) == multiset{fs[i]} + multiset(rest)
  {
    var before, after := fs[..i], fs[i + 1..];
    assert fs == before + ([fs[i]] + after);
    PenaltyConcat(before, after);
    PenaltyConcat(before, [fs[i]] + after);
  }

  /** The order of the findings does not matter. */
  lemma {:induction false} PenaltyOfPermutation(a: seq<SecurityFinding>, b: seq<SecurityFinding>)
    requires multiset(a) == multiset(b)
    ensures Penalty(a) == Penalty(b)
  {
    if a == [] {
      assert |b| == |multiset(b)| == |multiset(a)|;
    } else {
      var rest := WithoutFirst(a, b);
      PenaltyOfPermutation(a[1..], rest);
    }
  }

  /** What is left of `b` once it has lost an occurrence of `a[0]`. */
  lemma WithoutFirst(a: seq<SecurityFinding>, b: seq<SecurityFinding>) returns (rest: seq<SecurityFinding>)
    requires a != [] && multiset(a) == multiset(b)
    ensures multiset(a[1..]) == multiset(rest) && Penalty(b) == Cost(a[0]) + Penalty(rest)
  {
    hide Penalty, Cost;
    assert a[0] in multiset(b);
    var i :| 0 <= i < |b| && b[i] == a[0];
    rest := b[..i] + b[i + 1..];
    RemoveAt(b, i);
    assert a == [a[0]] + a[1..];
    CancelFirst(a[0], multiset(a[1..]), multiset(rest));
  }

  lemma CancelFirst(f: SecurityFinding, a: multiset<SecurityFinding>, b: multiset<SecurityFinding>)
    requires multiset{f} + a == multiset{f} + b
    ensures a == b
  {
    assert a == multiset{f} + a - multiset{f};
    assert b == multiset{f} + b - multiset{f};
  }

  lemma ReportIgnoresOrder(a: seq<SecurityFinding>, b: seq<SecurityFinding>)
    requires multiset(a) == multiset(b)
    ensures Score(a) == Score(b)
    ensures GradeOf(Score(a), a) == GradeOf(Score(b), b)
    ensures SummaryOf(Score(a), a) == SummaryOf(Score(b), b)
  {
    PenaltyOfPermutation(a, b);
    assert forall f :: f in a <==> f in multiset(a);
    assert forall f :: f in b <==> f in multiset(b);
  }

  // ----- Order of grades -----

  function Rank(g: Grade): nat {
    match g
    case APlus => 5
    case A => 4
    case B => 3
    case C => 2
    case D => 1
    case F => 0
    case Ungraded => 0
  }

  /** `worse` scores and grades no better than `better`. */
  predicate NoBetter(worse: seq<SecurityFinding>, better: seq<SecurityFinding>) {
    && Score(worse) <= Score(better)
    && Rank(GradeOf(Score(worse), worse)) <= Rank(GradeOf(Score(better), better))
  }

  lemma MorePenaltyNoBetter(worse: seq<SecurityFinding>, better: seq<SecurityFinding>)
    requires Penalty(worse) >= Penalty(better)
    requires HasCriticalFailure(better) ==> HasCriticalFailure(worse)
    ensures NoBetter(worse, better)
  {
  }

  /** Inserting a finding anywhere never improves the outcome. */
  lemma InsertingNeverImproves(a: seq<SecurityFinding>, f: SecurityFinding, b: seq<SecurityFinding>)
    ensures NoBetter(a + [f] + b, a + b)
  {
    PenaltyConcat(a + [f], b);
    PenaltyConcat(a, [f]);
    PenaltyConcat(a, b);
    if HasCriticalFailure(a + b) {
      var c :| c in a + b && IsCriticalFailure(c);
      assert c in a + [f] + b;
    }
    MorePenaltyNoBetter(a + [f] + b, a + b);
  }

  // ----- Which grades are possible -----

  lemma {:induction false} NoCountsNoPenalty(fs: seq<SecurityFinding>)
    requires forall f | f in fs :: !Counts(f)
    ensures Penalty(fs) == 0
  {
    if fs != [] {
      assert fs[0] in fs;
      NoCountsNoPenalty(fs[1..]);
    }
  }

  /** The summary "Local scan completed." is never given: without failures and warnings the score is 100. */
  lemma SummaryNeverCompleted(fs: seq<SecurityFinding>)
    ensures SummaryOf(Score(fs), fs) != Completed
  {
    if forall f | f in fs :: !Counts(f) {
      NoCountsNoPenalty(fs);
    } else {
      var f :| f in fs && Counts(f);
    }
  }

  /** The number of failures and warnings. */
  function Worries(fs: seq<SecurityFinding>): nat {
    if fs == [] then 0 else (if Counts(fs[0]) then 1 else 0) + Worries(fs[1..])
  }

  /** No failure or warning is cheaper than a medium one. */
  predicate NoCheapWorry(fs: seq<SecurityFinding>) {
    forall f | f in fs && Counts(f) :: f.severity != Info && f.severity != Low
  }

  lemma {:induction false} PenaltyOfWorries(fs: seq<SecurityFinding>)
    requires NoCheapWorry(fs)
    ensures Penalty(fs) >= 10 * Worries(fs)
    ensures Penalty(fs) == 10 <==> Worries(fs) == 1 && Tally(fs, Medium) == 1
    ensures Worries(fs) == 0 ==> Penalty(fs) == 0
    ensures Worries(fs) == 0 <==> forall f | f in fs :: !Counts(f)
    ensures Worries(fs) >= Tally(fs, Medium)
    ensures HasCriticalFailure(fs) ==> Penalty(fs) >= 40
  {
    if fs != [] {
      assert fs[0] in fs && fs == [fs[0]] + fs[1..];
      assert forall f | f in fs[1..] :: f in fs;
      PenaltyOfWorries(fs[1..]);
    }
  }

  /** Without cheap worries there is nothing between a perfect report and one
      medium finding: A+ means no failure or warning at all, A exactly one, and a medium one. */
  lemma TopGrades(fs: seq<SecurityFinding>)
    requires NoCheapWorry(fs)
    ensures var grade := GradeOf(Score(fs), fs);
            && (grade == APlus <==> forall f | f in fs :: !Counts(f))
            && (grade == APlus <==> Score(fs) == 100)
            && (grade == A <==> Worries(fs) == 1 && Tally(fs, Medium) == 1)
  {
    PenaltyOfWorries(fs);
  }
}
