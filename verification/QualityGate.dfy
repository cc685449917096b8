/** The base decision of the release gate: sorting a run's results into lists, then the first failing check. */
module QualityGate {
  import opened Strings
  import opened Lists
  import opened GatePolicy

  /** What the evidence helpers report about one test result. */
  datatype Finding = Finding(
    skipped: bool, errored: bool, vulnerable: bool, severity: string, confirmed: bool,
    evidenceVerified: bool, evidenceComplete: bool, evidenceConsistent: bool, retestComplete: bool,
    llm: bool, judgeComplete: bool, replay: bool, boundaryComplete: bool, safetyMissing: bool)

  datatype Run = Run(
    status: string,                  // "" when the column is empty
    executed: nat, authenticated: bool,
    missingArtifacts: seq<string>,   // statuses of the engine artifacts the base gate found missing
    contextGap: bool)

  datatype Status = PASSED | FAILED | PENDING

  datatype Why =
    | NoBlockingFindings
    | NoConfirmedBlockingFindings
    | ScanNotComplete
    | ScanFailed
    | ScanCanceled
    | ScanErrorsPresent
    | NoExecutedTests
    | UnauthenticatedScan
    | MissingSafetyPolicyEvidence
    | ArtifactContentGovernanceFailed
    | MissingEngineExecutionArtifacts
    | MissingAuthorizationBoundaryCoverage
    | UnverifiedEvidencePresent
    | IncompleteEvidencePresent
    | MissingRetestSupport
    | MissingLlmJudgeValidation
    | InconsistentEvidencePresent
    | UnconfirmedBlockingFindings
    | BlockingFindingsPresent
    | IncompleteWorkerIsolationArtifacts
    | DuplicateEngineExecutionArtifacts
    | IncompleteEngineArtifactAccountability
    | IncompleteSelectionAccountability
    | IncompleteSelectionCoverageAccountability
    | UnticketedBlockingVulnerabilities
    | UnhealthyTicketSyncBlockingVulnerabilities

  datatype Verdict = Verdict(status: Status, passed: bool, reason: Why, exitCode: nat)

  /** Status, flag and exit code say the same thing. */
  predicate Coherent(v: Verdict) {
    && (v.passed <==> v.status == PASSED)
    && (v.status == PASSED <==> v.exitCode == 0)
    && (v.status == PENDING <==> v.exitCode == 2)
  }

  function Failed(why: Why): Verdict {
    Verdict(FAILED, false, why, 1)
  }

  const SEVERITIES: set<string> := {"CRITICAL", "HIGH", "MEDIUM", "LOW", "INFO", "UNKNOWN"}
  const TERMINAL: set<string> := {"COMPLETED", "FAILED", "CANCELED"}

  function Severity(x: Finding): string {
    var name := Upper(Strip(if x.severity == "" then "UNKNOWN" else x.severity));
    if name in SEVERITIES then name else "UNKNOWN"
  }

  function RunStatus(run: Run): string {
    Upper(if run.status == "" then "UNKNOWN" else run.status)
  }

  /** The severity of a finding is one of six; a text that spells none of them, up to case and outer blanks, counts as
      unknown. */
  lemma SeverityExactly(x: Finding, name: string)
    ensures Severity(x) == name <==>
              && name in {"CRITICAL", "HIGH", "MEDIUM", "LOW", "INFO", "UNKNOWN"}
              && (Upper(Strip(x.severity)) == name ||
                  (name == "UNKNOWN"
                   && Upper(Strip(x.severity)) !in {"CRITICAL", "HIGH", "MEDIUM", "LOW", "INFO", "UNKNOWN"}))
  {
    assert |"CRITICAL"| == 8 && |"HIGH"| == 4 && |"MEDIUM"| == 6 && |"LOW"| == 3 && |"INFO"| == 4 && |"UNKNOWN"| == 7;
    UnknownStays();
    assert Strip("") == "" && Upper("") == "";
  }

  lemma UnknownStays()
    ensures Upper(Strip("UNKNOWN")) == "UNKNOWN"
  {
    StripIs("UNKNOWN", "", "UNKNOWN", "");
  }

  // ----- The lists a result can land in -----

  predicate Clear(x: Finding) { !x.skipped && !x.errored }

  predicate RetestMissing(p: Policy, x: Finding) {
    On(p, RetestSupport) && x.vulnerable && !x.retestComplete
  }

  predicate JudgeMissing(p: Policy, x: Finding) {
    On(p, LlmJudgeValidation) && x.vulnerable && x.llm && !x.judgeComplete
  }

  predicate BoundaryMissing(p: Policy, x: Finding) {
    On(p, AuthorizationBoundaryCoverage) && x.replay && !x.boundaryComplete
  }

  predicate Unverified(p: Policy, x: Finding) {
    Clear(x) && On(p, EvidenceIntegrity) && !x.evidenceVerified
  }

  predicate Incomplete(p: Policy, x: Finding) {
    Clear(x) && On(p, EvidenceCompleteness) && !x.evidenceComplete
  }

  predicate Blocking(p: Policy, x: Finding) {
    x.vulnerable && Severity(x) in ParseFailOn(p.failOn)
  }

  predicate Unconfirmed(p: Policy, x: Finding) {
    Blocking(p, x) && !x.confirmed && (On(p, ConfirmedFindings) || On(p, ConfirmatoryRetests))
  }

  predicate Failing(p: Policy, x: Finding) {
    Blocking(p, x) && !Unconfirmed(p, x)
  }

  datatype Kind =
    | ErroredResult
    | SafetyMissing
    | Inconsistent
    | NoRetest
    | NoJudge
    | NoBoundary
    | UnverifiedEvidence
    | IncompleteEvidence
    | UnconfirmedFinding
    | FailingFinding

  const KINDS: set<Kind> := {ErroredResult, SafetyMissing, Inconsistent, NoRetest, NoJudge, NoBoundary,
                             UnverifiedEvidence, IncompleteEvidence, UnconfirmedFinding, FailingFinding}

  predicate Is(p: Policy, k: Kind, x: Finding) {
    match k
    case ErroredResult => x.errored
    case SafetyMissing => x.safetyMissing
    case Inconsistent => !x.evidenceConsistent
    case NoRetest => RetestMissing(p, x)
    case NoJudge => JudgeMissing(p, x)
    case NoBoundary => BoundaryMissing(p, x)
    case UnverifiedEvidence => Unverified(p, x)
    case IncompleteEvidence => Incomplete(p, x)
    case UnconfirmedFinding => Unconfirmed(p, x)
    case FailingFinding => Failing(p, x)
  }

  /** The results of one kind, in their order. */
  function Listed(p: Policy, k: Kind, results: seq<Finding>): seq<Finding> {
    Kept(results, (x: Finding) => Is(p, k, x))
  }

  lemma ListedAppend(p: Policy, k: Kind, results: seq<Finding>, x: Finding)
    ensures Listed(p, k, results + [x]) == Listed(p, k, results) + if Is(p, k, x) then [x] else []
  {
    KeptAppend(results, x, (x: Finding) => Is(p, k, x));
  }

  lemma ListedEmpty(p: Policy, k: Kind, results: seq<Finding>)
    ensures Listed(p, k, results) == [] <==> forall x :: x in results ==> !Is(p, k, x)
  {
    KeptEmpty(results, (x: Finding) => Is(p, k, x));
  }

  lemma NextListed(p: Policy, results: seq<Finding>, i: nat)
    requires i < |results|
    ensures forall k :: Listed(p, k, results[..i + 1])
                     == Listed(p, k, results[..i]) + if Is(p, k, results[i]) then [results[i]] else []
  {
    NextPrefix(results, i);
    forall k
      ensures Listed(p, k, results[..i + 1])
              == Listed(p, k, results[..i]) + if Is(p, k, results[i]) then [results[i]] else []
    {
      ListedAppend(p, k, results[..i], results[i]);
    }
  }

  /** The part of the loop that looks at a result whether or not it is vulnerable. */
  method SortEvidence(p: Policy, results: seq<Finding>)
    returns (errored: seq<Finding>, safetyMissing: seq<Finding>, inconsistent: seq<Finding>, noBoundary: seq<Finding>,
             unverified: seq<Finding>, incomplete: seq<Finding>)
    ensures errored == Listed(p, ErroredResult, results) && safetyMissing == Listed(p, SafetyMissing, results)
    ensures inconsistent == Listed(p, Inconsistent, results) && noBoundary == Listed(p, NoBoundary, results)
    ensures unverified == Listed(p, UnverifiedEvidence, results) && incomplete == Listed(p, IncompleteEvidence, results)
  {
    errored, safetyMissing, inconsistent, noBoundary, unverified, incomplete := [], [], [], [], [], [];
    for i := 0 to |results|
      invariant errored == Listed(p, ErroredResult, results[..i])
        && safetyMissing == Listed(p, SafetyMissing, results[..i])
      invariant inconsistent == Listed(p, Inconsistent, results[..i])
        && noBoundary == Listed(p, NoBoundary, results[..i])
      invariant unverified == Listed(p, UnverifiedEvidence, results[..i])
      invariant incomplete == Listed(p, IncompleteEvidence, results[..i])
    {
      var x := results[i];
      NextListed(p, results, i);
      if x.errored { errored := errored + [x]; }
      if x.safetyMissing { safetyMissing := safetyMissing + [x]; }
      if !x.evidenceConsistent { inconsistent := inconsistent + [x]; }
      if On(p, AuthorizationBoundaryCoverage) && x.replay && !x.boundaryComplete { noBoundary := noBoundary + [x]; }
      if !x.skipped && !x.errored {
        if On(p, EvidenceIntegrity) && !x.evidenceVerified { unverified := unverified + [x]; }
        if On(p, EvidenceCompleteness) && !x.evidenceComplete { incomplete := incomplete + [x]; }
      }
    }
    assert results[..|results|] == results;
  }

  /** The part of the loop that looks at vulnerable results only. */
  method SortVulnerable(p: Policy, results: seq<Finding>)
    returns (noRetest: seq<Finding>, noJudge: seq<Finding>, unconfirmed: seq<Finding>, failing: seq<Finding>)
    ensures noRetest == Listed(p, NoRetest, results) && noJudge == Listed(p, NoJudge, results)
    ensures unconfirmed == Listed(p, UnconfirmedFinding, results) && failing == Listed(p, FailingFinding, results)
  {
    noRetest, noJudge, unconfirmed, failing := [], [], [], [];
    for i := 0 to |results|
      invariant noRetest == Listed(p, NoRetest, results[..i]) && noJudge == Listed(p, NoJudge, results[..i])
      invariant unconfirmed == Listed(p, UnconfirmedFinding, results[..i])
      invariant failing == Listed(p, FailingFinding, results[..i])
    {
      var x := results[i];
      NextListed(p, results, i);
      if On(p, RetestSupport) && x.vulnerable && !x.retestComplete { noRetest := noRetest + [x]; }
      if On(p, LlmJudgeValidation) && x.vulnerable && x.llm && !x.judgeComplete { noJudge := noJudge + [x]; }
      if !x.vulnerable { continue; }
      if Severity(x) !in ParseFailOn(p.failOn) { continue; }
      if On(p, ConfirmedFindings) && !x.confirmed {
        unconfirmed := unconfirmed + [x];
      } else if On(p, ConfirmatoryRetests) && !x.confirmed {
        unconfirmed := unconfirmed + [x];
      } else {
        failing := failing + [x];
      }
    }
    assert results[..|results|] == results;
  }

  // ----- The first failing check -----

  /** Whether some result is of this kind, which is what the checks ask of the lists. */
  predicate Any(p: Policy, k: Kind, results: seq<Finding>) {
    Listed(p, k, results) != []
  }

  /** Which of the lists are not empty. */
  datatype Seen = Seen(
    errored: bool, safetyMissing: bool, inconsistent: bool, noBoundary: bool, unverified: bool, incomplete: bool,
    noRetest: bool, noJudge: bool, unconfirmed: bool, failing: bool)

  function SeenIn(p: Policy, results: seq<Finding>): Seen {
    Seen(
      Any(p, ErroredResult, results), Any(p, SafetyMissing, results), Any(p, Inconsistent, results),
      Any(p, NoBoundary, results), Any(p, UnverifiedEvidence, results), Any(p, IncompleteEvidence, results),
      Any(p, NoRetest, results), Any(p, NoJudge, results), Any(p, UnconfirmedFinding, results),
      Any(p, FailingFinding, results))
  }

  /** The checks on a completed run. */
  function FirstFailure(run: Run, p: Policy, seen: Seen): Verdict {
    if On(p, FailOnErrors) && seen.errored then Failed(ScanErrorsPresent)
    else if On(p, FailOnNoExecution) && run.executed == 0 then Failed(NoExecutedTests)
    else if On(p, FailOnUnauthenticated) && !run.authenticated then Failed(UnauthenticatedScan)
    else if On(p, SafetyPolicies) && seen.safetyMissing then Failed(MissingSafetyPolicyEvidence)
    else if On(p, EngineArtifactAccountability) && run.missingArtifacts != [] then
      Failed(if "artifact_content_governance_failed" in run.missingArtifacts then ArtifactContentGovernanceFailed
             else MissingEngineExecutionArtifacts)
    else if On(p, AuthorizationBoundaryCoverage) && seen.noBoundary then Failed(MissingAuthorizationBoundaryCoverage)
    else if On(p, AuthorizationBoundaryCoverage) && run.contextGap then Failed(MissingAuthorizationBoundaryCoverage)
    else if On(p, EvidenceIntegrity) && seen.unverified then Failed(UnverifiedEvidencePresent)
    else if On(p, EvidenceCompleteness) && seen.incomplete then Failed(IncompleteEvidencePresent)
    else if On(p, RetestSupport) && seen.noRetest then Failed(MissingRetestSupport)
    else if On(p, LlmJudgeValidation) && seen.noJudge then Failed(MissingLlmJudgeValidation)
    else if seen.inconsistent then Failed(InconsistentEvidencePresent)
    else if On(p, ConfirmatoryRetests) && seen.unconfirmed then Failed(UnconfirmedBlockingFindings)
    else if seen.failing then Failed(BlockingFindingsPresent)
    else if On(p, ConfirmedFindings) && seen.unconfirmed then Verdict(PASSED, true, NoConfirmedBlockingFindings, 0)
    else Verdict(PASSED, true, NoBlockingFindings, 0)
  }

  function Decide(run: Run, p: Policy, seen: Seen): Verdict {
    var status := RunStatus(run);
    if status !in TERMINAL then Verdict(PENDING, false, ScanNotComplete, 2)
    else if status != "COMPLETED" then Failed(if status == "FAILED" then ScanFailed else ScanCanceled)
    else FirstFailure(run, p, seen)
  }

  function BaseVerdict(run: Run, p: Policy, results: seq<Finding>): Verdict {
    Decide(run, p, SeenIn(p, results))
  }

  /** The gate: every result sorted into the lists, then the checks in their order. */
  method EvaluateQualityGate(run: Run, p: Policy, results: seq<Finding>) returns (v: Verdict)
    ensures v == BaseVerdict(run, p, results)
  {
    var errored, safetyMissing, inconsistent, noBoundary, unverified, incomplete := SortEvidence(p, results);
    var noRetest, noJudge, unconfirmed, failing := SortVulnerable(p, results);
    v := Decide(run, p, Seen(
      errored != [], safetyMissing != [], inconsistent != [], noBoundary != [], unverified != [], incomplete != [],
      noRetest != [], noJudge != [], unconfirmed != [], failing != []));
  }

  // ----- What a base pass means -----

  /** A finding that a policy tolerates. */
  predicate Tolerated(p: Policy, x: Finding) {
    && (On(p, FailOnErrors) ==> !x.errored)
    && (On(p, SafetyPolicies) ==> !x.safetyMissing)
    && (On(p, AuthorizationBoundaryCoverage) && x.replay ==> x.boundaryComplete)
    && (On(p, EvidenceIntegrity) && !x.skipped && !x.errored ==> x.evidenceVerified)
    && (On(p, EvidenceCompleteness) && !x.skipped && !x.errored ==> x.evidenceComplete)
    && (On(p, RetestSupport) && x.vulnerable ==> x.retestComplete)
    && (On(p, LlmJudgeValidation) && x.vulnerable && x.llm ==> x.judgeComplete)
    && x.evidenceConsistent
    && (x.vulnerable && Severity(x) in ParseFailOn(p.failOn) ==>
          On(p, ConfirmedFindings) && !On(p, ConfirmatoryRetests) && !x.confirmed)
  }

  predicate RunTolerated(run: Run, p: Policy) {
    && Upper(run.status) == "COMPLETED"
    && (On(p, FailOnNoExecution) ==> run.executed > 0)
    && (On(p, FailOnUnauthenticated) ==> run.authenticated)
    && (On(p, EngineArtifactAccountability) ==> run.missingArtifacts == [])
    && (On(p, AuthorizationBoundaryCoverage) ==> !run.contextGap)
  }

  /** The lists that have to be empty. */
  predicate SeenPass(p: Policy, seen: Seen) {
    && !(On(p, FailOnErrors) && seen.errored)
    && !(On(p, SafetyPolicies) && seen.safetyMissing)
    && !(On(p, AuthorizationBoundaryCoverage) && seen.noBoundary)
    && !(On(p, EvidenceIntegrity) && seen.unverified)
    && !(On(p, EvidenceCompleteness) && seen.incomplete)
    && !(On(p, RetestSupport) && seen.noRetest)
    && !(On(p, LlmJudgeValidation) && seen.noJudge)
    && !seen.inconsistent
    && !(On(p, ConfirmatoryRetests) && seen.unconfirmed)
    && !seen.failing
  }

  predicate ResultsPass(p: Policy, results: seq<Finding>) {
    SeenPass(p, SeenIn(p, results))
  }

  lemma CompletedPasses(run: Run, p: Policy, seen: Seen)
    ensures Coherent(FirstFailure(run, p, seen))
    ensures FirstFailure(run, p, seen).status == PASSED <==>
              && (On(p, FailOnNoExecution) ==> run.executed > 0)
              && (On(p, FailOnUnauthenticated) ==> run.authenticated)
              && (On(p, EngineArtifactAccountability) ==> run.missingArtifacts == [])
              && (On(p, AuthorizationBoundaryCoverage) ==> !run.contextGap)
              && SeenPass(p, seen)
  {
  }

  lemma DecidePasses(run: Run, p: Policy, seen: Seen)
    ensures Coherent(Decide(run, p, seen))
    ensures Decide(run, p, seen).status == PASSED <==> RunTolerated(run, p) && SeenPass(p, seen)
  {
    CompletedPasses(run, p, seen);
    assert "COMPLETED" in TERMINAL && Upper("") == "" && Upper("UNKNOWN") == "UNKNOWN";
    assert |"COMPLETED"| == 9 && |"UNKNOWN"| == 7;
  }

  lemma ToleratedByKind(p: Policy, x: Finding)
    ensures Tolerated(p, x) <==>
              && !(On(p, FailOnErrors) && Is(p, ErroredResult, x))
              && !(On(p, SafetyPolicies) && Is(p, SafetyMissing, x))
              && !Is(p, NoBoundary, x) && !Is(p, UnverifiedEvidence, x) && !Is(p, IncompleteEvidence, x)
              && !Is(p, NoRetest, x) && !Is(p, NoJudge, x) && !Is(p, Inconsistent, x)
              && !(On(p, ConfirmatoryRetests) && Is(p, UnconfirmedFinding, x)) && !Is(p, FailingFinding, x)
  {
  }

  lemma ResultsPassExactly(p: Policy, results: seq<Finding>)
    ensures ResultsPass(p, results) <==> forall x :: x in results ==> Tolerated(p, x)
  {
    forall k
      ensures Any(p, k, results) <==> exists x :: x in results && Is(p, k, x)
    {
      ListedEmpty(p, k, results);
    }
    forall x | x in results
      ensures ResultsPass(p, results) ==> Tolerated(p, x)
    {
      ToleratedByKind(p, x);
    }
    if forall x :: x in results ==> Tolerated(p, x) {
      AllToleratedPass(p, results);
    }
  }

  lemma AllToleratedPass(p: Policy, results: seq<Finding>)
    requires forall x :: x in results ==> Tolerated(p, x)
    ensures ResultsPass(p, results)
  {
    forall x | x in results
      ensures !(On(p, FailOnErrors) && Is(p, ErroredResult, x)) && !(On(p, SafetyPolicies) && Is(p, SafetyMissing, x))
      ensures !Is(p, NoBoundary, x) && !Is(p, UnverifiedEvidence, x) && !Is(p, IncompleteEvidence, x)
      ensures !Is(p, NoRetest, x) && !Is(p, NoJudge, x) && !Is(p, Inconsistent, x) && !Is(p, FailingFinding, x)
      ensures !(On(p, ConfirmatoryRetests) && Is(p, UnconfirmedFinding, x))
    {
      ToleratedByKind(p, x);
    }
    forall k
      ensures Any(p, k, results) <==> exists x :: x in results && Is(p, k, x)
    {
      ListedEmpty(p, k, results);
    }
  }

  /** The base gate passes exactly the completed runs whose every result the policy tolerates. */
  lemma BasePassesExactly(run: Run, p: Policy, results: seq<Finding>)
    ensures Coherent(BaseVerdict(run, p, results))
    ensures BaseVerdict(run, p, results).status == PASSED <==>
              RunTolerated(run, p) && forall x :: x in results ==> Tolerated(p, x)
  {
    ResultsPassExactly(p, results);
    DecidePasses(run, p, SeenIn(p, results));
  }

  lemma WeakerTolerates(p: Policy, q: Policy, x: Finding)
    requires AtLeast(q, p) && Tolerated(q, x)
    ensures Tolerated(p, x)
  {
    assert On(p, FailOnErrors) ==> On(q, FailOnErrors);
    assert On(p, SafetyPolicies) ==> On(q, SafetyPolicies);
    assert On(p, AuthorizationBoundaryCoverage) ==> On(q, AuthorizationBoundaryCoverage);
    assert On(p, EvidenceIntegrity) ==> On(q, EvidenceIntegrity);
    assert On(p, EvidenceCompleteness) ==> On(q, EvidenceCompleteness);
    assert On(p, RetestSupport) ==> On(q, RetestSupport);
    assert On(p, LlmJudgeValidation) ==> On(q, LlmJudgeValidation);
    assert On(p, ConfirmatoryRetests) ==> On(q, ConfirmatoryRetests);
    assert On(q, ConfirmedFindings) ==> On(p, ConfirmedFindings);
  }

  /** A run that passes under a policy passes under every weaker one. */
  lemma BasePassIsMonotone(run: Run, p: Policy, q: Policy, results: seq<Finding>)
    requires AtLeast(q, p) && BaseVerdict(run, q, results).status == PASSED
    ensures BaseVerdict(run, p, results).status == PASSED
  {
    BasePassesExactly(run, p, results);
    BasePassesExactly(run, q, results);
    forall x | x in results
      ensures Tolerated(p, x)
    {
      WeakerTolerates(p, q, x);
    }
    assert On(p, FailOnNoExecution) ==> On(q, FailOnNoExecution);
    assert On(p, FailOnUnauthenticated) ==> On(q, FailOnUnauthenticated);
    assert On(p, EngineArtifactAccountability) ==> On(q, EngineArtifactAccountability);
    assert On(p, AuthorizationBoundaryCoverage) ==> On(q, AuthorizationBoundaryCoverage);
  }
}
