/** Which verdict the base gate gives: by the status of the run, and on a completed run by the first failing check. */
module BaseReasons {
  import opened Strings
  import opened Lists
  import opened GatePolicy
  import opened QualityGate

  // ----- The status of the run -----

  /** A run that has not ended is pending, one that failed or was canceled fails for that, and no other run does. */
  lemma VerdictByStatus(run: Run, p: Policy, results: seq<Finding>)
    ensures var v, status := BaseVerdict(run, p, results), Upper(run.status);
            && (v.status == PENDING <==> status !in {"COMPLETED", "FAILED", "CANCELED"})
            && (v.reason == ScanNotComplete <==> status !in {"COMPLETED", "FAILED", "CANCELED"})
            && (v.reason == ScanFailed <==> status == "FAILED")
            && (v.reason == ScanCanceled <==> status == "CANCELED")
            && (status in {"FAILED", "CANCELED"} ==> v.status == FAILED)
  {
    DifferentStatuses();
    assert run.status == "" ==> Upper(run.status) == "" && RunStatus(run) == "UNKNOWN";
    FirstFailureIsOther(run, p, SeenIn(p, results));
  }

  lemma DifferentStatuses()
    ensures "FAILED" != "CANCELED" && "COMPLETED" != "FAILED" && "COMPLETED" != "CANCELED"
    ensures Upper("UNKNOWN") == "UNKNOWN" && "UNKNOWN" !in {"COMPLETED", "FAILED", "CANCELED", ""}
    ensures "" !in {"COMPLETED", "FAILED", "CANCELED"}
  {
    assert |"COMPLETED"| == 9 && |"FAILED"| == 6 && |"CANCELED"| == 8 && |"UNKNOWN"| == 7;
  }

  lemma FirstFailureIsOther(run: Run, p: Policy, seen: Seen)
    ensures FirstFailure(run, p, seen).reason !in {ScanNotComplete, ScanFailed, ScanCanceled}
    ensures FirstFailure(run, p, seen).status != PENDING
  {
  }

  // ----- The checks on a completed run, in their order -----

  /** Where a check stands in the written order. */
  function Rank(check: Why): nat {
    match check
    case ScanErrorsPresent => 0
    case NoExecutedTests => 1
    case UnauthenticatedScan => 2
    case MissingSafetyPolicyEvidence => 3
    case ArtifactContentGovernanceFailed => 4
    case MissingEngineExecutionArtifacts => 5
    case MissingAuthorizationBoundaryCoverage => 6
    case UnverifiedEvidencePresent => 7
    case IncompleteEvidencePresent => 8
    case MissingRetestSupport => 9
    case MissingLlmJudgeValidation => 10
    case InconsistentEvidencePresent => 11
    case UnconfirmedBlockingFindings => 12
    case BlockingFindingsPresent => 13
    case _ => 14
  }

  /** A vulnerable result of a severity that blocks. */
  predicate Severe(p: Policy, x: Finding) {
    x.vulnerable && Severity(x) in ParseFailOn(p.failOn)
  }

  /** What each check finds wrong with the run or with one of its results. */
  ghost predicate Fails(run: Run, p: Policy, results: seq<Finding>, check: Why) {
    match check
    case ScanErrorsPresent => On(p, FailOnErrors) && exists x :: x in results && x.errored
    case NoExecutedTests => On(p, FailOnNoExecution) && run.executed == 0
    case UnauthenticatedScan => On(p, FailOnUnauthenticated) && !run.authenticated
    case MissingSafetyPolicyEvidence => On(p, SafetyPolicies) && exists x :: x in results && x.safetyMissing
    case ArtifactContentGovernanceFailed =>
      On(p, EngineArtifactAccountability) && "artifact_content_governance_failed" in run.missingArtifacts
    case MissingEngineExecutionArtifacts => On(p, EngineArtifactAccountability) && run.missingArtifacts != []
    case MissingAuthorizationBoundaryCoverage =>
      && On(p, AuthorizationBoundaryCoverage)
      && (run.contextGap || exists x :: x in results && x.replay && !x.boundaryComplete)
    case UnverifiedEvidencePresent =>
      On(p, EvidenceIntegrity) && exists x :: x in results && !x.skipped && !x.errored && !x.evidenceVerified
    case IncompleteEvidencePresent =>
      On(p, EvidenceCompleteness) && exists x :: x in results && !x.skipped && !x.errored && !x.evidenceComplete
    case MissingRetestSupport => On(p, RetestSupport) && exists x :: x in results && x.vulnerable && !x.retestComplete
    case MissingLlmJudgeValidation =>
      On(p, LlmJudgeValidation) && exists x :: x in results && x.vulnerable && x.llm && !x.judgeComplete
    case InconsistentEvidencePresent => exists x :: x in results && !x.evidenceConsistent
    case UnconfirmedBlockingFindings =>
      On(p, ConfirmatoryRetests) && exists x :: x in results && Severe(p, x) && !x.confirmed
    case BlockingFindingsPresent =>
      exists x :: x in results && Severe(p, x)
               && (x.confirmed || !(On(p, ConfirmedFindings) || On(p, ConfirmatoryRetests)))
    case _ => false
  }

  ghost predicate FirstToFail(fails: Why -> bool, check: Why) {
    fails(check) && forall other :: Rank(other) < Rank(check) ==> !fails(other)
  }

  /** What each check asks of the lists. */
  predicate Found(run: Run, p: Policy, seen: Seen, check: Why) {
    match check
    case ScanErrorsPresent => On(p, FailOnErrors) && seen.errored
    case NoExecutedTests => On(p, FailOnNoExecution) && run.executed == 0
    case UnauthenticatedScan => On(p, FailOnUnauthenticated) && !run.authenticated
    case MissingSafetyPolicyEvidence => On(p, SafetyPolicies) && seen.safetyMissing
    case ArtifactContentGovernanceFailed =>
      On(p, EngineArtifactAccountability) && "artifact_content_governance_failed" in run.missingArtifacts
    case MissingEngineExecutionArtifacts => On(p, EngineArtifactAccountability) && run.missingArtifacts != []
    case MissingAuthorizationBoundaryCoverage =>
      On(p, AuthorizationBoundaryCoverage) && (seen.noBoundary || run.contextGap)
    case UnverifiedEvidencePresent => On(p, EvidenceIntegrity) && seen.unverified
    case IncompleteEvidencePresent => On(p, EvidenceCompleteness) && seen.incomplete
    case MissingRetestSupport => On(p, RetestSupport) && seen.noRetest
    case MissingLlmJudgeValidation => On(p, LlmJudgeValidation) && seen.noJudge
    case InconsistentEvidencePresent => seen.inconsistent
    case UnconfirmedBlockingFindings => On(p, ConfirmatoryRetests) && seen.unconfirmed
    case BlockingFindingsPresent => seen.failing
    case _ => false
  }

  lemma AnyExactly(p: Policy, k: Kind, results: seq<Finding>)
    ensures Any(p, k, results) <==> exists x :: x in results && Is(p, k, x)
  {
    ListedEmpty(p, k, results);
  }

  lemma FoundVulnerable(run: Run, p: Policy, results: seq<Finding>, check: Why)
    requires check in {MissingRetestSupport, MissingLlmJudgeValidation, UnconfirmedBlockingFindings,
                       BlockingFindingsPresent}
    ensures Found(run, p, SeenIn(p, results), check) <==> Fails(run, p, results, check)
  {
    match check
    case MissingRetestSupport => AnyExactly(p, NoRetest, results);
    case MissingLlmJudgeValidation => AnyExactly(p, NoJudge, results);
    case UnconfirmedBlockingFindings => AnyExactly(p, UnconfirmedFinding, results);
    case BlockingFindingsPresent => AnyExactly(p, FailingFinding, results);
  }

  lemma FoundExactly(run: Run, p: Policy, results: seq<Finding>, check: Why)
    ensures Found(run, p, SeenIn(p, results), check) <==> Fails(run, p, results, check)
  {
    if check in {MissingRetestSupport, MissingLlmJudgeValidation, UnconfirmedBlockingFindings, BlockingFindingsPresent} {
      FoundVulnerable(run, p, results, check);
      return;
    }
    match check
    case ScanErrorsPresent => AnyExactly(p, ErroredResult, results);
    case MissingSafetyPolicyEvidence => AnyExactly(p, SafetyMissing, results);
    case MissingAuthorizationBoundaryCoverage => AnyExactly(p, NoBoundary, results);
    case UnverifiedEvidencePresent => AnyExactly(p, UnverifiedEvidence, results);
    case IncompleteEvidencePresent => AnyExactly(p, IncompleteEvidence, results);
    case InconsistentEvidencePresent => AnyExactly(p, Inconsistent, results);
    case _ =>
  }

  lemma ReasonIsFound(run: Run, p: Policy, seen: Seen)
    ensures var v := FirstFailure(run, p, seen);
            && (v.status == FAILED ==> Found(run, p, seen, v.reason) && v == Failed(v.reason))
            && (v.status == PASSED ==>
                  v.reason == if On(p, ConfirmedFindings) && seen.unconfirmed then NoConfirmedBlockingFindings
                              else NoBlockingFindings)
            && v.status != PENDING
  {
  }

  lemma NothingFoundBefore(run: Run, p: Policy, seen: Seen, check: Why)
    requires Found(run, p, seen, check)
    ensures FirstFailure(run, p, seen).status == FAILED
    ensures Rank(FirstFailure(run, p, seen).reason) <= Rank(check)
  {
  }

  lemma FirstFailureIsFirstFound(run: Run, p: Policy, seen: Seen, fails: Why -> bool)
    requires forall check :: fails(check) == Found(run, p, seen, check)
    ensures var v := FirstFailure(run, p, seen);
            && (v.status == FAILED ==> FirstToFail(fails, v.reason))
            && (v.status == PASSED ==> forall check :: !fails(check))
  {
    ReasonIsFound(run, p, seen);
    forall check | fails(check)
      ensures FirstFailure(run, p, seen).status == FAILED && Rank(FirstFailure(run, p, seen).reason) <= Rank(check)
    {
      NothingFoundBefore(run, p, seen, check);
    }
  }

  /** A completed run fails with the first check, in the written order, that it fails, and passes when it fails none;
      a pass says whether unconfirmed findings were let through. */
  lemma ReasonIsFirstFailingCheck(run: Run, p: Policy, results: seq<Finding>)
    requires Upper(run.status) == "COMPLETED"
    ensures var v, fails := BaseVerdict(run, p, results), check => Fails(run, p, results, check);
            && (v.status == FAILED ==> FirstToFail(fails, v.reason) && v == Failed(v.reason))
            && (v.status == PASSED <==> forall check :: !fails(check))
            && (v.status == PASSED ==>
                  var spared := On(p, ConfirmedFindings) && exists x :: x in results && Severe(p, x) && !x.confirmed;
                  v.reason == if spared then NoConfirmedBlockingFindings else NoBlockingFindings)
            && v.status != PENDING
  {
    var seen, fails := SeenIn(p, results), check => Fails(run, p, results, check);
    forall check
      ensures fails(check) == Found(run, p, seen, check)
    {
      FoundExactly(run, p, results, check);
    }
    CompletedDecides(run, p, seen);
    ReasonIsFound(run, p, seen);
    FirstFailureIsFirstFound(run, p, seen, fails);
    if On(p, ConfirmedFindings) { SparedExactly(p, results); }
  }

  lemma CompletedDecides(run: Run, p: Policy, seen: Seen)
    requires Upper(run.status) == "COMPLETED"
    ensures Decide(run, p, seen) == FirstFailure(run, p, seen)
  {
    DifferentStatuses();
  }

  lemma SparedExactly(p: Policy, results: seq<Finding>)
    requires On(p, ConfirmedFindings)
    ensures Any(p, UnconfirmedFinding, results) <==> exists x :: x in results && Severe(p, x) && !x.confirmed
  {
    AnyExactly(p, UnconfirmedFinding, results);
  }
}
