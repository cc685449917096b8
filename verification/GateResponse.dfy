/** The release gate from request to decision: quota, policy, enforcement, base gate and overlays. */
module GateResponse {
  import opened Strings
  import opened Json
  import opened Lists
  import opened GatePolicy
  import opened QualityGate
  import opened ReleaseOverlays

  /** A test result with the identifiers that put vulnerabilities into the run's scope; "" stands for none. */
  datatype Result = Result(finding: Finding, endpointId: string, templateId: string)

  datatype Vulnerability = Vulnerability(
    accountId: int, severity: Option<string>, falsePositive: bool, status: string,
    endpointId: Option<string>, templateId: Option<string>, summary: Blocker)

  /** What a request asks for, and what its sender may do. */
  datatype Ask = Ask(packName: string, query: Query, allowOverrides: bool, mayTrigger: bool)

  /** Everything that the gate reads. */
  datatype Facts = Facts(
    quotaLeft: bool, accountId: int, run: Run, endpointIds: seq<string>, templateIds: seq<string>, results: seq<Result>,
    manifest: Option<Value>, vulnerabilities: seq<Vulnerability>)

  /** The report manifest; when building it raised, there is no decision that could read it. */
  function Manifest(f: Facts): Value {
    if f.manifest.Some? then f.manifest.value else Null
  }

  datatype Response = HttpError(statusCode: nat) | Decided(decision: Snapshot, strictMode: bool)

  const STOPPED: set<string> := {"CLOSED", "RESOLVED", "FALSE_POSITIVE", "FALSE-POSITIVE", "ACCEPTED_RISK"}

  function Findings(results: seq<Result>): seq<Finding> {
    seq(|results|, i requires 0 <= i < |results| => results[i].finding)
  }

  // ----- Scope -----

  function Named(ids: seq<string>): set<string> {
    set id | id in ids && id != ""
  }

  ghost function EndpointScope(f: Facts): set<string> {
    Named(f.endpointIds) + set r | r in f.results && r.endpointId != "" :: r.endpointId
  }

  ghost function TemplateScope(f: Facts): set<string> {
    Named(f.templateIds) + set r | r in f.results && r.templateId != "" :: r.templateId
  }

  method RunScopeIds(f: Facts) returns (endpoints: set<string>, templates: set<string>)
    ensures endpoints == EndpointScope(f) && templates == TemplateScope(f)
  {
    endpoints, templates := Named(f.endpointIds), Named(f.templateIds);
    for i := 0 to |f.results|
      invariant endpoints == Named(f.endpointIds) + set r | r in f.results[..i] && r.endpointId != "" :: r.endpointId
      invariant templates == Named(f.templateIds) + set r | r in f.results[..i] && r.templateId != "" :: r.templateId
    {
      var r := f.results[i];
      NextPrefix(f.results, i);
      if r.endpointId != "" { endpoints := endpoints + {r.endpointId}; }
      if r.templateId != "" { templates := templates + {r.templateId}; }
    }
    assert f.results[..|f.results|] == f.results;
  }

  predicate InScope(v: Vulnerability, endpoints: set<string>, templates: set<string>) {
    if endpoints != {} then v.endpointId.Some? && v.endpointId.value in endpoints
    else v.templateId.Some? && v.templateId.value in templates
  }

  predicate Blocks(v: Vulnerability, accountId: int, failOn: set<string>, endpoints: set<string>,
                   templates: set<string>)
  {
    && v.accountId == accountId
    && v.severity.Some? && v.severity.value in failOn
    && !v.falsePositive
    && v.status !in STOPPED
    && InScope(v, endpoints, templates)
  }

  /** The summaries of the rows that the query selects, in store order. */
  function Selected(rows: seq<Vulnerability>, accountId: int, failOn: set<string>, endpoints: set<string>,
                    templates: set<string>): (blockers: seq<Blocker>)
    ensures forall b :: b in blockers <==>
              exists v :: v in rows && Blocks(v, accountId, failOn, endpoints, templates) && v.summary == b
  {
    if rows == [] then []
    else
      var rest := Selected(rows[1..], accountId, failOn, endpoints, templates);
      assert rows == [rows[0]] + rows[1..];
      if Blocks(rows[0], accountId, failOn, endpoints, templates) then [rows[0].summary] + rest else rest
  }

  ghost function Blockers(f: Facts, p: Policy): seq<Blocker> {
    Selected(f.vulnerabilities, f.accountId, ParseFailOn(p.failOn), EndpointScope(f), TemplateScope(f))
  }

  lemma {:induction false} NothingSelected(rows: seq<Vulnerability>, accountId: int, failOn: set<string>,
                                           endpoints: set<string>, templates: set<string>)
    requires failOn == {} || (endpoints == {} && templates == {})
    ensures Selected(rows, accountId, failOn, endpoints, templates) == []
  {
    if rows != [] { NothingSelected(rows[1..], accountId, failOn, endpoints, templates); }
  }

  method LoadScopedBlockingVulnerabilities(f: Facts, failOn: string) returns (blockers: seq<Blocker>)
    ensures blockers == Selected(f.vulnerabilities, f.accountId, ParseFailOn(failOn), EndpointScope(f),
              TemplateScope(f))
  {
    var severities := ParseFailOn(failOn);
    if severities == {} {
      NothingSelected(f.vulnerabilities, f.accountId, severities, EndpointScope(f), TemplateScope(f));
      return [];
    }
    var endpoints, templates := RunScopeIds(f);
    if endpoints == {} && templates == {} {
      NothingSelected(f.vulnerabilities, f.accountId, severities, endpoints, templates);
      return [];
    }
    blockers := Selected(f.vulnerabilities, f.accountId, severities, endpoints, templates);
  }

  // ----- Which vulnerabilities those are -----

  /** The run or one of its results names the endpoint; an empty id names none. */
  ghost predicate NamesEndpoint(f: Facts, id: string) {
    id != "" && (id in f.endpointIds || exists r :: r in f.results && r.endpointId == id)
  }

  ghost predicate NamesTemplate(f: Facts, id: string) {
    id != "" && (id in f.templateIds || exists r :: r in f.results && r.templateId == id)
  }

  /** A vulnerability that has to be ticketed before the run is released: of the account, of a blocking severity, not
      marked as a false positive, open, and at an endpoint that is named or, when none is, of a template that is. */
  ghost predicate HoldsUpRelease(f: Facts, severities: set<string>, v: Vulnerability) {
    && v.accountId == f.accountId
    && v.severity.Some? && v.severity.value in severities
    && !v.falsePositive
    && v.status !in {"CLOSED", "RESOLVED", "FALSE_POSITIVE", "FALSE-POSITIVE", "ACCEPTED_RISK"}
    && (if exists id :: NamesEndpoint(f, id) then v.endpointId.Some? && NamesEndpoint(f, v.endpointId.value)
        else v.templateId.Some? && NamesTemplate(f, v.templateId.value))
  }

  lemma ScopeExactly(f: Facts, id: string)
    ensures id in EndpointScope(f) <==> NamesEndpoint(f, id)
    ensures id in TemplateScope(f) <==> NamesTemplate(f, id)
  {
  }

  lemma HoldsUpExactly(f: Facts, severities: set<string>, v: Vulnerability)
    ensures Blocks(v, f.accountId, severities, EndpointScope(f), TemplateScope(f)) <==>
              HoldsUpRelease(f, severities, v)
  {
    forall id
      ensures id in EndpointScope(f) <==> NamesEndpoint(f, id)
    {
      ScopeExactly(f, id);
    }
    if EndpointScope(f) != {} {
      var id :| id in EndpointScope(f);
      assert NamesEndpoint(f, id);
    }
    if v.templateId.Some? { ScopeExactly(f, v.templateId.value); }
  }

  lemma {:induction false} SelectedPicks(rows: seq<Vulnerability>, accountId: int, failOn: set<string>,
                                         endpoints: set<string>, templates: set<string>,
                                         p: Vulnerability -> bool) returns (at: seq<nat>)
    requires forall v :: p(v) <==> Blocks(v, accountId, failOn, endpoints, templates)
    ensures Picks(rows, Selected(rows, accountId, failOn, endpoints, templates), p, (v: Vulnerability) => v.summary, at)
  {
    at := [];
    if rows != [] {
      var rest := SelectedPicks(rows[1..], accountId, failOn, endpoints, templates, p);
      var kept := Selected(rows[1..], accountId, failOn, endpoints, templates);
      at := PicksNext(rows, kept, Selected(rows, accountId, failOn, endpoints, templates),
                      p, (v: Vulnerability) => v.summary, rest);
    }
  }

  /** The summaries loaded for the ticket gate are, in store order and one by one, those of the rows that hold up the
      release. */
  lemma LoadedExactly(f: Facts, p: Policy)
    ensures Picked(f.vulnerabilities, Blockers(f, p), v => HoldsUpRelease(f, ParseFailOn(p.failOn), v),
                   (v: Vulnerability) => v.summary)
  {
    var severities := ParseFailOn(p.failOn);
    var holds := v => HoldsUpRelease(f, severities, v);
    forall v: Vulnerability
      ensures holds(v) <==> Blocks(v, f.accountId, severities, EndpointScope(f), TemplateScope(f))
    {
      HoldsUpExactly(f, severities, v);
    }
    var at := SelectedPicks(f.vulnerabilities, f.accountId, severities, EndpointScope(f), TemplateScope(f), holds);
    PicksAlike(f.vulnerabilities, Blockers(f, p), holds, v => HoldsUpRelease(f, ParseFailOn(p.failOn), v),
               (v: Vulnerability) => v.summary, (v: Vulnerability) => v.summary, at);
  }

  // ----- The response -----

  /** The decision under a policy, apart from what the overlays record besides the verdict. */
  ghost function VerdictUnder(f: Facts, show: Value -> string, p: Policy): Verdict {
    var base := BaseVerdict(f.run, p, Findings(f.results));
    var checked := ArtifactVerdict(base, show, Manifest(f), On(p, EngineArtifactAccountability));
    TicketVerdict(checked, Blockers(f, p), On(p, TicketedBlockingVulnerabilities))
  }

  /** What the pipeline answers: the errors in their order, or the decision with its mode and every recorded entry. */
  ghost predicate Answers(f: Facts, ask: Ask, show: Value -> string, response: Response) {
    var effective := EffectivePolicy(ask.packName, ask.query);
    if !f.quotaLeft then response == HttpError(429)
    else if effective.None? then response == HttpError(400)
    else
      var p := effective.value;
      match EnforceGatePolicy(p, ask.allowOverrides, ask.mayTrigger)
      case Refused(code, _) => response == HttpError(code)
      case Proceed(strict, _, _) =>
        if f.manifest.None? then response == HttpError(500)
        else
          && response.Decided? && response.strictMode == strict && response.decision.verdict == VerdictUnder(f, show, p)
          && response.decision.required == DefectsOf(RequiredArtifacts(Manifest(f)))
          && response.decision.continuous == DefectsOf(ContinuousArtifacts(Manifest(f)))
          && response.decision.selection == SelectionOf(show, Manifest(f))
          && response.decision.ticketing == Some(TicketingOf(Blockers(f, p), On(p, TicketedBlockingVulnerabilities)))
  }

  method EvaluateGateResponse(f: Facts, ask: Ask, show: Value -> string) returns (response: Response)
    ensures Answers(f, ask, show, response)
  {
    if !f.quotaLeft { return HttpError(429); }
    var effective := ResolveGatePolicy(ask.packName, ask.query);
    if effective.None? { return HttpError(400); }
    var p := effective.value;
    var enforcement := EnforceGatePolicy(p, ask.allowOverrides, ask.mayTrigger);
    if enforcement.Refused? { return HttpError(enforcement.statusCode); }
    var base := EvaluateQualityGate(f.run, p, Findings(f.results));
    var decision := new Decision(base, p.flags);
    if f.manifest.None? { return HttpError(500); }
    decision.ApplyEngineArtifactAccountabilityGate(show, f.manifest.value, On(p, EngineArtifactAccountability));
    var blockers := LoadScopedBlockingVulnerabilities(f, p.failOn);
    decision.ApplyLifecycleTicketingGate(blockers, On(p, TicketedBlockingVulnerabilities));
    response := Decided(decision.Now(), enforcement.strictMode);
  }

  // ----- When a run passes -----

  /** Every vulnerability in scope that blocks at these severities has a ticket whose sync is not unhealthy. */
  ghost predicate Ticketed(f: Facts, failOn: set<string>) {
    forall v :: v in f.vulnerabilities && HoldsUpRelease(f, failOn, v) ==>
      v.summary.ticketed && !v.summary.syncUnhealthy
  }

  /** A run that a policy has nothing against. */
  ghost predicate Releasable(f: Facts, p: Policy) {
    && RunTolerated(f.run, p)
    && (forall r :: r in f.results ==> Tolerated(p, r.finding))
    && (Asks(Manifest(f), On(p, EngineArtifactAccountability)) ==> ArtifactsAccounted(Manifest(f)))
    && (On(p, TicketedBlockingVulnerabilities) ==>
          Ticketed(f, ParseFailOn(p.failOn)))
  }

  lemma ResultsTolerated(f: Facts, p: Policy)
    ensures (forall x :: x in Findings(f.results) ==> Tolerated(p, x)) <==>
              forall r :: r in f.results ==> Tolerated(p, r.finding)
  {
    var findings := Findings(f.results);
    forall i | 0 <= i < |f.results|
      ensures findings[i] == f.results[i].finding && findings[i] in findings && f.results[i] in f.results
    {
    }
  }

  lemma TicketsByRow(f: Facts, p: Policy)
    ensures TicketsInOrder(Blockers(f, p)) <==>
              Ticketed(f, ParseFailOn(p.failOn))
  {
    forall v: Vulnerability
      ensures Blocks(v, f.accountId, ParseFailOn(p.failOn), EndpointScope(f), TemplateScope(f)) <==>
                HoldsUpRelease(f, ParseFailOn(p.failOn), v)
    {
      HoldsUpExactly(f, ParseFailOn(p.failOn), v);
    }
  }

  /** The whole gate passes exactly the runs that the policy has nothing against, and its verdict is always coherent. */
  lemma PassesExactly(f: Facts, show: Value -> string, p: Policy)
    ensures Coherent(VerdictUnder(f, show, p))
    ensures VerdictUnder(f, show, p).status == PASSED <==> Releasable(f, p)
  {
    var base := BaseVerdict(f.run, p, Findings(f.results));
    BasePassesExactly(f.run, p, Findings(f.results));
    ResultsTolerated(f, p);
    TicketsByRow(f, p);
    OverlaysOnlyFail(base, show, Manifest(f), Blockers(f, p), On(p, EngineArtifactAccountability));
    OverlaysPassExactly(base, show, Manifest(f), Blockers(f, p), On(p, EngineArtifactAccountability));
    var checked := ArtifactVerdict(base, show, Manifest(f), On(p, EngineArtifactAccountability));
    OverlaysOnlyFail(checked, show, Manifest(f), Blockers(f, p), On(p, TicketedBlockingVulnerabilities));
    OverlaysPassExactly(checked, show, Manifest(f), Blockers(f, p), On(p, TicketedBlockingVulnerabilities));
  }

  lemma WeakerDemands(p: Policy, q: Policy, run: Run)
    requires AtLeast(q, p)
    ensures RunTolerated(run, q) ==> RunTolerated(run, p)
    ensures On(p, EngineArtifactAccountability) ==> On(q, EngineArtifactAccountability)
    ensures On(p, TicketedBlockingVulnerabilities) ==> On(q, TicketedBlockingVulnerabilities)
  {
    assert On(p, FailOnNoExecution) ==> On(q, FailOnNoExecution);
    assert On(p, FailOnUnauthenticated) ==> On(q, FailOnUnauthenticated);
    assert On(p, AuthorizationBoundaryCoverage) ==> On(q, AuthorizationBoundaryCoverage);
  }

  lemma WeakerReleases(f: Facts, p: Policy, q: Policy)
    requires AtLeast(q, p) && Releasable(f, q)
    ensures Releasable(f, p)
  {
    WeakerDemands(p, q, f.run);
    forall r | r in f.results
      ensures Tolerated(p, r.finding)
    {
      WeakerTolerates(p, q, r.finding);
    }
  }

  /** A run that passes under a policy passes under every weaker one, through every stage of the gate. */
  lemma PassIsMonotone(f: Facts, show: Value -> string, p: Policy, q: Policy)
    requires AtLeast(q, p)
    ensures VerdictUnder(f, show, q).status == PASSED ==> VerdictUnder(f, show, p).status == PASSED
  {
    PassesExactly(f, show, p);
    PassesExactly(f, show, q);
    if Releasable(f, q) { WeakerReleases(f, p, q); }
  }

  /** What a pass in strict mode guarantees, whatever the pack and the query were. */
  ghost predicate StrictlyReleasable(f: Facts) {
    && Upper(f.run.status) == "COMPLETED" && f.run.executed > 0 && f.run.authenticated
    && f.run.missingArtifacts == [] && !f.run.contextGap
    && (forall r :: r in f.results ==> StrictlyClean(r.finding))
    && (Asks(Manifest(f), true) ==> ArtifactsAccounted(Manifest(f)))
    && Ticketed(f, {"CRITICAL", "HIGH"})
  }

  predicate StrictlyClean(x: Finding) {
    && !x.errored && !x.safetyMissing && x.evidenceConsistent
    && (x.replay ==> x.boundaryComplete)
    && (!x.skipped ==> x.evidenceVerified && x.evidenceComplete)
    && (x.vulnerable ==> x.retestComplete && Severity(x) !in {"CRITICAL", "HIGH"})
  }

  lemma StrictFlagsOn(p: Policy)
    requires AtLeast(p, STRICT)
    ensures forall f :: f != ConfirmedFindings && f != LlmJudgeValidation ==> On(p, f)
    ensures !On(p, ConfirmedFindings) && STRICT_SEVERITIES <= ParseFailOn(p.failOn)
  {
    StrictSeverities();
    forall f | f != ConfirmedFindings && f != LlmJudgeValidation
      ensures On(p, f)
    {
      StrictFlags(f);
    }
    StrictFlags(ConfirmedFindings);
  }

  lemma StrictlyTolerated(p: Policy, x: Finding)
    requires AtLeast(p, STRICT) && Tolerated(p, x)
    ensures StrictlyClean(x)
  {
    StrictFlagsOn(p);
  }

  lemma StrictlyToleratedRun(p: Policy, run: Run)
    ensures AtLeast(p, STRICT) && RunTolerated(run, p) ==>
              && Upper(run.status) == "COMPLETED" && run.executed > 0 && run.authenticated
              && run.missingArtifacts == [] && !run.contextGap
  {
    if AtLeast(p, STRICT) && RunTolerated(run, p) { StrictFlagsOn(p); }
  }

  lemma StrictlyReleased(f: Facts, p: Policy)
    ensures AtLeast(p, STRICT) && Releasable(f, p) ==> StrictlyReleasable(f)
  {
    if AtLeast(p, STRICT) && Releasable(f, p) {
      StrictFlagsOn(p);
      StrictlyToleratedRun(p, f.run);
      forall r | r in f.results
        ensures StrictlyClean(r.finding)
      {
        StrictlyTolerated(p, r.finding);
      }
    }
  }

  /** A pass in strict mode is sound: the policy in force was at least strict, and the run is clean by the strict
      policy's own measure. */
  lemma StrictPassIsSound(f: Facts, show: Value -> string, p: Policy, allowOverrides: bool, mayTrigger: bool)
    ensures var e := EnforceGatePolicy(p, allowOverrides, mayTrigger);
            e.Proceed? && e.strictMode && VerdictUnder(f, show, p).status == PASSED ==>
              AtLeast(p, STRICT) && StrictlyReleasable(f)
  {
    EnforcedExactly(p, allowOverrides, mayTrigger);
    PassesExactly(f, show, p);
    StrictlyReleased(f, p);
  }

  /** So a response that passes in strict mode, to whatever request, is about a clean run. */
  lemma StrictResponseIsSound(f: Facts, ask: Ask, show: Value -> string, response: Response)
    ensures Answers(f, ask, show, response) && response.Decided? && response.strictMode
            && response.decision.verdict.status == PASSED ==>
              && AtLeast(EffectivePolicy(ask.packName, ask.query).value, STRICT) && StrictlyReleasable(f)
  {
    var effective := EffectivePolicy(ask.packName, ask.query);
    if effective.Some? { StrictPassIsSound(f, show, effective.value, ask.allowOverrides, ask.mayTrigger); }
  }

  lemma StrictlyCleanIsTolerated(x: Finding)
    requires StrictlyClean(x)
    ensures Tolerated(STRICT, x)
  {
    StrictSeverities();
    StrictFlags(LlmJudgeValidation);
    assert ParseFailOn(STRICT.failOn) == STRICT_SEVERITIES;
  }

  lemma StrictlyReleasableIsReleasable(f: Facts)
    requires StrictlyReleasable(f)
    ensures Releasable(f, STRICT)
  {
    StrictSeverities();
    forall r | r in f.results
      ensures Tolerated(STRICT, r.finding)
    {
      StrictlyCleanIsTolerated(r.finding);
    }
  }

  /** The plain strict pack passes exactly the runs that are clean by that measure. */
  lemma StrictPackPassesExactly(f: Facts, show: Value -> string)
    ensures VerdictUnder(f, show, STRICT).status == PASSED <==> StrictlyReleasable(f)
  {
    PassesExactly(f, show, STRICT);
    StrictlyReleased(f, STRICT);
    if StrictlyReleasable(f) { StrictlyReleasableIsReleasable(f); }
  }
}
