/** The two overlays that the release gate writes into a decision after the base gate: artifacts, then tickets. */
module ReleaseOverlays {
  import opened Strings
  import opened Json
  import opened Lists
  import opened GatePolicy
  import opened QualityGate
  import Coverage = CoverageGaps

  // ----- Engine artifacts as the report manifest lists them -----

  datatype Defect = Missing | NotVerified | Duplicated | NotIsolated | NotGoverned

  const LISTED_LIMIT := 25

  predicate Shows(d: Defect, artifact: Value) {
    var status := Get(artifact, "status");
    match d
    case Missing => status == Str("missing") || IsFalse(Get(artifact, "present"))
    case NotVerified =>
      status == Str("unverified") || (IsTrue(Get(artifact, "present")) && !IsTrue(Get(artifact, "verified")))
    case Duplicated => status == Str("duplicate_artifact")
    case NotIsolated => status == Str("worker_isolation_incomplete")
    case NotGoverned => status == Str("artifact_content_governance_failed")
  }

  /** The artifacts with a defect, in their order. */
  function Defective(d: Defect, artifacts: seq<Value>): (found: seq<Value>)
    ensures forall a :: a in found <==> a in artifacts && Shows(d, a)
  {
    if artifacts == [] then []
    else
      assert artifacts == [artifacts[0]] + artifacts[1..];
      (if Shows(d, artifacts[0]) then [artifacts[0]] else []) + Defective(d, artifacts[1..])
  }

  function WithStatus(status: string, details: seq<Value>): (found: seq<Value>)
    ensures forall a :: a in found <==> a in details && Get(a, "status") == Str(status)
  {
    if details == [] then []
    else
      assert details == [details[0]] + details[1..];
      (if Get(details[0], "status") == Str(status) then [details[0]] else []) + WithStatus(status, details[1..])
  }

  function Accountability(manifest: Value): Value {
    Get(manifest, "engine_accountability")
  }

  function RequiredArtifacts(manifest: Value): seq<Value> {
    Dicts(Get(Accountability(manifest), "required_artifacts"))
  }

  function ContinuousArtifacts(manifest: Value): seq<Value> {
    Dicts(Get(Accountability(manifest), "continuous_artifacts"))
  }

  function Selection(manifest: Value): Value {
    Get(Accountability(manifest), "selection_accountability")
  }

  function SelectionDetails(manifest: Value): seq<Value> {
    var details := Get(Selection(manifest), "engine_details");
    if details.Arr? then details.items else []
  }

  // ----- What the overlays record in the decision -----

  /** How many items an entry of the decision has, and the first of them. */
  datatype Entry<T> = Entry(count: nat, shown: seq<T>)

  function EntryFor<T>(items: seq<T>): Entry<T> {
    Entry(|items|, Take(items, LISTED_LIMIT))
  }

  datatype DefectEntries = DefectEntries(
    missing: Entry<Value>, notVerified: Entry<Value>, duplicated: Entry<Value>, notIsolated: Entry<Value>,
    notGoverned: Entry<Value>)

  datatype SelectionEntries = SelectionEntries(
    missing: Entry<Value>, unverified: Entry<Value>, gaps: Entry<Coverage.Gap>)

  /** A scoped blocking vulnerability as the ticket gate summarises it. */
  datatype Blocker = Blocker(id: string, ticketed: bool, syncUnhealthy: bool, overdue: bool)

  datatype Ticketing = Ticketing(
    required: bool, complete: bool, ticketed: nat, scoped: Entry<Blocker>,
    unticketed: Entry<Blocker>, unhealthy: Entry<Blocker>, overdue: Entry<Blocker>)

  datatype Snapshot = Snapshot(
    verdict: Verdict, policy: map<Flag, bool>, required: DefectEntries, continuous: DefectEntries,
    selection: SelectionEntries, ticketing: Option<Ticketing>)

  function DefectsOf(artifacts: seq<Value>): DefectEntries {
    DefectEntries(
      EntryFor(Defective(Missing, artifacts)), EntryFor(Defective(NotVerified, artifacts)),
      EntryFor(Defective(Duplicated, artifacts)), EntryFor(Defective(NotIsolated, artifacts)),
      EntryFor(Defective(NotGoverned, artifacts)))
  }

  function SelectionOf(show: Value -> string, manifest: Value): SelectionEntries {
    var details := SelectionDetails(manifest);
    SelectionEntries(
      EntryFor(WithStatus("missing_selection_accountability", details)),
      EntryFor(WithStatus("unverified_artifact", details)),
      EntryFor(Coverage.AllGaps(show, details)))
  }

  // ----- The artifact overlay -----

  /** Some artifact, required or continuous, has the defect. */
  predicate AnyShows(manifest: Value, d: Defect) {
    Defective(d, RequiredArtifacts(manifest)) != [] || Defective(d, ContinuousArtifacts(manifest)) != []
  }

  predicate PlanContext(manifest: Value) {
    IsTrue(Get(Selection(manifest), "scan_plan_context_present"))
  }

  predicate Complete(manifest: Value) {
    IsTrue(Get(Accountability(manifest), "complete"))
  }

  predicate SelectionComplete(manifest: Value) {
    IsTrue(Get(Selection(manifest), "selection_accountability_complete"))
  }

  predicate Demanded(manifest: Value, required: bool) {
    required && Accountability(manifest).Obj? && IsTrue(Get(Accountability(manifest), "required"))
  }

  /** What the overlay's checks find, in the order in which they are written. */
  datatype Inspection = Inspection(
    notGoverned: bool, notIsolated: bool, duplicated: bool, incomplete: bool, selectionGap: bool, coverageGap: bool)

  function Inspect(show: Value -> string, manifest: Value): Inspection {
    Inspection(
      AnyShows(manifest, NotGoverned), AnyShows(manifest, NotIsolated), AnyShows(manifest, Duplicated),
      !Complete(manifest),
      PlanContext(manifest) && !SelectionComplete(manifest),
      PlanContext(manifest) && Coverage.AllGaps(show, SelectionDetails(manifest)) != [])
  }

  /** The first check to fail. */
  function FirstOf(i: Inspection): Option<Why> {
    if i.notGoverned then Some(ArtifactContentGovernanceFailed)
    else if i.notIsolated then Some(IncompleteWorkerIsolationArtifacts)
    else if i.duplicated then Some(DuplicateEngineExecutionArtifacts)
    else if i.incomplete then Some(IncompleteEngineArtifactAccountability)
    else if i.selectionGap then Some(IncompleteSelectionAccountability)
    else if i.coverageGap then Some(IncompleteSelectionCoverageAccountability)
    else None
  }

  function FirstDefect(show: Value -> string, manifest: Value): Option<Why> {
    FirstOf(Inspect(show, manifest))
  }

  /** An objection turns a pass into a failure and leaves everything else. */
  function Objected(v: Verdict, objection: Option<Why>): Verdict {
    if v.status == PASSED && objection.Some? then Failed(objection.value) else v
  }

  function ArtifactObjection(show: Value -> string, manifest: Value, required: bool): Option<Why> {
    if Demanded(manifest, required) then FirstDefect(show, manifest) else None
  }

  function ArtifactVerdict(v: Verdict, show: Value -> string, manifest: Value, required: bool): Verdict {
    Objected(v, ArtifactObjection(show, manifest, required))
  }

  function AfterArtifacts(s: Snapshot, show: Value -> string, manifest: Value, required: bool): Snapshot {
    s.(verdict := ArtifactVerdict(s.verdict, show, manifest, required),
       policy := s.policy[EngineArtifactAccountability := required],
       required := DefectsOf(RequiredArtifacts(manifest)),
       continuous := DefectsOf(ContinuousArtifacts(manifest)),
       selection := SelectionOf(show, manifest))
  }

  // ----- The ticket overlay -----

  datatype Concern = NoTicket | BadSync | Late

  predicate Raises(c: Concern, b: Blocker) {
    match c
    case NoTicket => !b.ticketed
    case BadSync => b.ticketed && b.syncUnhealthy
    case Late => b.overdue
  }

  function Raising(c: Concern, blockers: seq<Blocker>): (found: seq<Blocker>)
    ensures forall b :: b in found <==> b in blockers && Raises(c, b)
    ensures |found| <= |blockers|
  {
    if blockers == [] then []
    else
      assert blockers == [blockers[0]] + blockers[1..];
      (if Raises(c, blockers[0]) then [blockers[0]] else []) + Raising(c, blockers[1..])
  }

  function TicketObjection(blockers: seq<Blocker>, required: bool): Option<Why> {
    if !required then None
    else if Raising(NoTicket, blockers) != [] then Some(UnticketedBlockingVulnerabilities)
    else if Raising(BadSync, blockers) != [] then Some(UnhealthyTicketSyncBlockingVulnerabilities)
    else None
  }

  function TicketVerdict(v: Verdict, blockers: seq<Blocker>, required: bool): Verdict {
    Objected(v, TicketObjection(blockers, required))
  }

  function TicketingOf(blockers: seq<Blocker>, required: bool): Ticketing {
    var unticketed, unhealthy := Raising(NoTicket, blockers), Raising(BadSync, blockers);
    Ticketing(required, unticketed == [] && unhealthy == [], |blockers| - |unticketed|, EntryFor(blockers),
              EntryFor(unticketed), EntryFor(unhealthy), EntryFor(Raising(Late, blockers)))
  }

  function AfterTickets(s: Snapshot, blockers: seq<Blocker>, required: bool): Snapshot {
    s.(verdict := TicketVerdict(s.verdict, blockers, required),
       policy := s.policy[TicketedBlockingVulnerabilities := required],
       ticketing := Some(TicketingOf(blockers, required)))
  }

  // ----- The decision object that both overlays change in place -----

  const NO_DEFECTS: DefectEntries := DefectsOf([])

  class Decision {
    var status: Status
    var passed: bool
    var reason: Why
    var exitCode: nat
    var policy: map<Flag, bool>
    var required: DefectEntries
    var continuous: DefectEntries
    var selection: SelectionEntries
    var ticketing: Option<Ticketing>

    constructor (base: Verdict, flags: map<Flag, bool>)
      ensures Now().verdict == base && Now().policy == flags && Now().ticketing.None?
    {
      status, passed, reason, exitCode := base.status, base.passed, base.reason, base.exitCode;
      policy, required, continuous, ticketing := flags, NO_DEFECTS, NO_DEFECTS, None;
      selection := SelectionEntries(EntryFor([]), EntryFor([]), EntryFor([]));
    }

    function Now(): Snapshot
      reads this
    {
      Snapshot(Verdict(status, passed, reason, exitCode), policy, required, continuous, selection, ticketing)
    }

    method Fail(why: Why)
      modifies `status, `passed, `reason, `exitCode
      ensures Now() == old(Now()).(verdict := Failed(why))
    {
      status := FAILED;
      passed := false;
      reason := why;
      exitCode := 1;
    }

    method ApplyEngineArtifactAccountabilityGate(show: Value -> string, manifest: Value, demanded: bool)
      modifies this
      ensures Now() == AfterArtifacts(old(Now()), show, manifest, demanded)
    {
      policy := policy[EngineArtifactAccountability := demanded];
      required := DefectsOf(RequiredArtifacts(manifest));
      continuous := DefectsOf(ContinuousArtifacts(manifest));
      var details := SelectionDetails(manifest);
      var gaps := Coverage.CollectGaps(show, details);
      selection := SelectionEntries(
        EntryFor(WithStatus("missing_selection_accountability", details)),
        EntryFor(WithStatus("unverified_artifact", details)), EntryFor(gaps));
      if !demanded { return; }
      if !Accountability(manifest).Obj? || !IsTrue(Get(Accountability(manifest), "required")) { return; }
      CheckArtifacts(show, manifest, gaps);
    }

    /** The checks one after the other, each only while the decision still passes. */
    method CheckArtifacts(show: Value -> string, manifest: Value, gaps: seq<Coverage.Gap>)
      requires gaps == Coverage.AllGaps(show, SelectionDetails(manifest)) && Demanded(manifest, true)
      modifies `status, `passed, `reason, `exitCode
      ensures Now() == old(Now()).(verdict := ArtifactVerdict(old(Now()).verdict, show, manifest, true))
    {
      if status == PASSED && AnyShows(manifest, NotGoverned) { Fail(ArtifactContentGovernanceFailed); }
      if status == PASSED && AnyShows(manifest, NotIsolated) { Fail(IncompleteWorkerIsolationArtifacts); }
      if status == PASSED && AnyShows(manifest, Duplicated) { Fail(DuplicateEngineExecutionArtifacts); }
      if !Complete(manifest) && status == PASSED {
        Fail(IncompleteEngineArtifactAccountability);
      }
      if status == PASSED && PlanContext(manifest) && !SelectionComplete(manifest) {
        Fail(IncompleteSelectionAccountability);
      }
      if status == PASSED && PlanContext(manifest) && gaps != [] { Fail(IncompleteSelectionCoverageAccountability); }
    }

    method ApplyLifecycleTicketingGate(blockers: seq<Blocker>, demanded: bool)
      modifies this
      ensures Now() == AfterTickets(old(Now()), blockers, demanded)
    {
      policy := policy[TicketedBlockingVulnerabilities := demanded];
      var unticketed, unhealthy := Raising(NoTicket, blockers), Raising(BadSync, blockers);
      ticketing := Some(TicketingOf(blockers, demanded));
      if demanded && unticketed != [] && status == PASSED {
        Fail(UnticketedBlockingVulnerabilities);
      } else if demanded && unhealthy != [] && status == PASSED {
        Fail(UnhealthyTicketSyncBlockingVulnerabilities);
      }
    }
  }

  // ----- The reason is the first failing check in the written order -----

  const ARTIFACT_CHECKS: seq<Why> := [
    ArtifactContentGovernanceFailed, IncompleteWorkerIsolationArtifacts, DuplicateEngineExecutionArtifacts,
    IncompleteEngineArtifactAccountability, IncompleteSelectionAccountability,
    IncompleteSelectionCoverageAccountability]

  /** The dict is in the list that the manifest's accountability has under this name. */
  predicate Carries(manifest: Value, name: string, a: Value) {
    var list := Get(Get(manifest, "engine_accountability"), name);
    list.Arr? && a in list.items && a.Obj?
  }

  ghost predicate SomeArtifact(manifest: Value, status: string) {
    exists a :: (Carries(manifest, "required_artifacts", a) || Carries(manifest, "continuous_artifacts", a))
                && Get(a, "status") == Str(status)
  }

  function SelectionEntry(manifest: Value, name: string): Value {
    Get(Get(Get(manifest, "engine_accountability"), "selection_accountability"), name)
  }

  ghost predicate SomeGap(manifest: Value) {
    var details := SelectionEntry(manifest, "engine_details");
    details.Arr? && exists d :: d in details.items && !Coverage.Accounted(d)
  }

  /** What each check finds wrong with a manifest. */
  ghost predicate Fails(manifest: Value, check: Why) {
    match check
    case ArtifactContentGovernanceFailed => SomeArtifact(manifest, "artifact_content_governance_failed")
    case IncompleteWorkerIsolationArtifacts => SomeArtifact(manifest, "worker_isolation_incomplete")
    case DuplicateEngineExecutionArtifacts => SomeArtifact(manifest, "duplicate_artifact")
    case IncompleteEngineArtifactAccountability =>
      Get(Get(manifest, "engine_accountability"), "complete") != Bool(true)
    case IncompleteSelectionAccountability =>
      && SelectionEntry(manifest, "scan_plan_context_present") == Bool(true)
      && SelectionEntry(manifest, "selection_accountability_complete") != Bool(true)
    case IncompleteSelectionCoverageAccountability =>
      SelectionEntry(manifest, "scan_plan_context_present") == Bool(true) && SomeGap(manifest)
    case _ => false
  }

  lemma {:induction false} OnlyDictsExactly(items: seq<Value>, a: Value)
    ensures a in OnlyDicts(items) <==> a in items && a.Obj?
  {
    if items != [] {
      OnlyDictsExactly(items[1..], a);
      assert items == [items[0]] + items[1..];
    }
  }

  lemma CarriesExactly(manifest: Value, a: Value)
    ensures a in RequiredArtifacts(manifest) <==> Carries(manifest, "required_artifacts", a)
    ensures a in ContinuousArtifacts(manifest) <==> Carries(manifest, "continuous_artifacts", a)
  {
    var required := Get(Accountability(manifest), "required_artifacts");
    var continuous := Get(Accountability(manifest), "continuous_artifacts");
    if required.Arr? { OnlyDictsExactly(required.items, a); }
    if continuous.Arr? { OnlyDictsExactly(continuous.items, a); }
  }

  ghost predicate FirstToFail(fails: Why -> bool, i: nat) {
    i < |ARTIFACT_CHECKS| && fails(ARTIFACT_CHECKS[i]) && forall j :: 0 <= j < i ==> !fails(ARTIFACT_CHECKS[j])
  }

  lemma AnyShowsExactly(manifest: Value, d: Defect, status: string)
    requires forall a :: Shows(d, a) <==> Get(a, "status") == Str(status)
    ensures AnyShows(manifest, d) <==> SomeArtifact(manifest, status)
  {
    var inRequired := Defective(d, RequiredArtifacts(manifest));
    var inContinuous := Defective(d, ContinuousArtifacts(manifest));
    forall a
      ensures a in inRequired <==> Carries(manifest, "required_artifacts", a) && Get(a, "status") == Str(status)
      ensures a in inContinuous <==> Carries(manifest, "continuous_artifacts", a) && Get(a, "status") == Str(status)
    {
      CarriesExactly(manifest, a);
    }
    if inRequired != [] { assert inRequired[0] in inRequired; }
    if inContinuous != [] { assert inContinuous[0] in inContinuous; }
  }

  lemma AnyShowsByStatus(manifest: Value)
    ensures AnyShows(manifest, NotGoverned) <==> SomeArtifact(manifest, "artifact_content_governance_failed")
    ensures AnyShows(manifest, NotIsolated) <==> SomeArtifact(manifest, "worker_isolation_incomplete")
    ensures AnyShows(manifest, Duplicated) <==> SomeArtifact(manifest, "duplicate_artifact")
  {
    AnyShowsExactly(manifest, NotGoverned, "artifact_content_governance_failed");
    AnyShowsExactly(manifest, NotIsolated, "worker_isolation_incomplete");
    AnyShowsExactly(manifest, Duplicated, "duplicate_artifact");
  }

  lemma GapsExactly(show: Value -> string, manifest: Value)
    ensures Fails(manifest, IncompleteSelectionCoverageAccountability) <==>
              PlanContext(manifest) && Coverage.AllGaps(show, SelectionDetails(manifest)) != []
  {
    Coverage.NoGapsExactly(show, SelectionDetails(manifest));
  }

  function Found(i: Inspection, check: Why): bool {
    match check
    case ArtifactContentGovernanceFailed => i.notGoverned
    case IncompleteWorkerIsolationArtifacts => i.notIsolated
    case DuplicateEngineExecutionArtifacts => i.duplicated
    case IncompleteEngineArtifactAccountability => i.incomplete
    case IncompleteSelectionAccountability => i.selectionGap
    case IncompleteSelectionCoverageAccountability => i.coverageGap
    case _ => false
  }

  lemma InspectExactly(show: Value -> string, manifest: Value, check: Why)
    ensures Found(Inspect(show, manifest), check) <==> Fails(manifest, check)
  {
    AnyShowsByStatus(manifest);
    if check == IncompleteSelectionCoverageAccountability { GapsExactly(show, manifest); }
  }

  lemma FirstOfIsFirst(i: Inspection, fails: Why -> bool)
    requires forall check :: fails(check) == Found(i, check)
    ensures FirstOf(i).None? <==> forall check :: check in ARTIFACT_CHECKS ==> !fails(check)
    ensures FirstOf(i).Some? ==> exists n: nat :: FirstToFail(fails, n) && FirstOf(i).value == ARTIFACT_CHECKS[n]
  {
    var n: nat := if i.notGoverned then 0 else if i.notIsolated then 1 else if i.duplicated then 2
      else if i.incomplete then 3 else if i.selectionGap then 4 else 5;
    assert ARTIFACT_CHECKS[n] in ARTIFACT_CHECKS;
    if fails(ARTIFACT_CHECKS[n]) { assert FirstToFail(fails, n); }
  }

  /** A failing reason is the first check that the manifest fails, and there is none exactly when it fails no check. */
  lemma ReasonIsFirstFailingCheck(show: Value -> string, manifest: Value)
    ensures var defect, fails := FirstDefect(show, manifest), check => Fails(manifest, check);
            && (defect.None? <==> forall check :: check in ARTIFACT_CHECKS ==> !fails(check))
            && (defect.Some? ==> exists i: nat :: FirstToFail(fails, i) && defect.value == ARTIFACT_CHECKS[i])
  {
    forall check
      ensures Fails(manifest, check) == Found(Inspect(show, manifest), check)
    {
      InspectExactly(show, manifest, check);
    }
    FirstOfIsFirst(Inspect(show, manifest), check => Fails(manifest, check));
  }

  // ----- What an overlaid pass means -----

  /** Nothing the artifact overlay looks at is wrong with the manifest. */
  ghost predicate ArtifactsAccounted(manifest: Value) {
    && (forall a :: Carries(manifest, "required_artifacts", a) || Carries(manifest, "continuous_artifacts", a) ==>
          Get(a, "status") !in {Str("artifact_content_governance_failed"), Str("worker_isolation_incomplete"),
                                Str("duplicate_artifact")})
    && Get(Get(manifest, "engine_accountability"), "complete") == Bool(true)
    && (SelectionEntry(manifest, "scan_plan_context_present") == Bool(true) ==>
          SelectionEntry(manifest, "selection_accountability_complete") == Bool(true) && !SomeGap(manifest))
  }

  /** The policy and the manifest both ask for the check. */
  predicate Asks(manifest: Value, required: bool) {
    required && Get(Get(manifest, "engine_accountability"), "required") == Bool(true)
  }

  predicate TicketsInOrder(blockers: seq<Blocker>) {
    forall b :: b in blockers ==> b.ticketed && !b.syncUnhealthy
  }

  lemma NoDefectExactly(show: Value -> string, manifest: Value)
    ensures FirstDefect(show, manifest).None? <==> ArtifactsAccounted(manifest)
  {
    AnyShowsByStatus(manifest);
    Coverage.NoGapsExactly(show, SelectionDetails(manifest));
  }

  lemma NothingRaisedExactly(blockers: seq<Blocker>)
    ensures Raising(NoTicket, blockers) == [] && Raising(BadSync, blockers) == [] <==> TicketsInOrder(blockers)
    ensures TicketingOf(blockers, true).complete <==> TicketsInOrder(blockers)
  {
    var unticketed, unhealthy := Raising(NoTicket, blockers), Raising(BadSync, blockers);
    if unticketed != [] { assert unticketed[0] in unticketed; }
    if unhealthy != [] { assert unhealthy[0] in unhealthy; }
    if TicketsInOrder(blockers) {
      assert unticketed == [] && unhealthy == [];
    } else {
      var b :| b in blockers && !(b.ticketed && !b.syncUnhealthy);
      assert b in unticketed || b in unhealthy;
    }
  }

  /** The decision passes after an overlay exactly when it passed
      before and the overlay, if demanded, has no objection. */
  lemma OverlaysPassExactly(v: Verdict, show: Value -> string, manifest: Value, blockers: seq<Blocker>, required: bool)
    ensures ArtifactVerdict(v, show, manifest, required).status == PASSED <==>
              v.status == PASSED && (Asks(manifest, required) ==> ArtifactsAccounted(manifest))
    ensures TicketVerdict(v, blockers, required).status == PASSED <==>
              v.status == PASSED && (required ==> TicketsInOrder(blockers))
  {
    NoDefectExactly(show, manifest);
    NothingRaisedExactly(blockers);
  }

  /** Both overlays keep the decision coherent and leave every decision that does not pass exactly as it is. */
  lemma OverlaysOnlyFail(v: Verdict, show: Value -> string, manifest: Value, blockers: seq<Blocker>, required: bool)
    requires Coherent(v)
    ensures Coherent(ArtifactVerdict(v, show, manifest, required)) && Coherent(TicketVerdict(v, blockers, required))
    ensures v.status != PASSED ==>
              ArtifactVerdict(v, show, manifest, required) == v == TicketVerdict(v, blockers, required)
  {
  }

  /** Applying an overlay again changes nothing in the whole decision. */
  lemma OverlaysAreIdempotent(s: Snapshot, show: Value -> string, manifest: Value, blockers: seq<Blocker>,
                              required: bool)
    ensures var t := AfterArtifacts(s, show, manifest, required); AfterArtifacts(t, show, manifest, required) == t
    ensures var t := AfterTickets(s, blockers, required); AfterTickets(t, blockers, required) == t
  {
  }

  lemma ObjectionsCommute(v: Verdict, x: Option<Why>, y: Option<Why>)
    requires x.Some? && y.Some? ==> x != y
    ensures var first, second := Objected(Objected(v, x), y), Objected(Objected(v, y), x);
            && first == second.(reason := first.reason)
            && (first.reason != second.reason <==> v.status == PASSED && x.Some? && y.Some?)
  {
  }

  lemma ObjectionsExactly(show: Value -> string, manifest: Value, blockers: seq<Blocker>, a: bool, t: bool)
    ensures var x, y := ArtifactObjection(show, manifest, a), TicketObjection(blockers, t);
            && (x.Some? <==> Demanded(manifest, a) && !ArtifactsAccounted(manifest))
            && (y.Some? <==> t && !TicketsInOrder(blockers))
            && (x.Some? && y.Some? ==> x != y)
  {
    NoDefectExactly(show, manifest);
    NothingRaisedExactly(blockers);
  }

  /** The two overlays commute but for the reason, and the reason differs exactly when both of them object to a pass. */
  lemma OverlaysCommute(s: Snapshot, show: Value -> string, manifest: Value, blockers: seq<Blocker>, a: bool, t: bool)
    ensures var first := AfterTickets(AfterArtifacts(s, show, manifest, a), blockers, t);
            var second := AfterArtifacts(AfterTickets(s, blockers, t), show, manifest, a);
            && first == second.(verdict := second.verdict.(reason := first.verdict.reason))
            && (first.verdict.reason != second.verdict.reason <==>
                  && s.verdict.status == PASSED
                  && Demanded(manifest, a) && !ArtifactsAccounted(manifest)
                  && t && !TicketsInOrder(blockers))
  {
    ObjectionsExactly(show, manifest, blockers, a, t);
    ObjectionsCommute(s.verdict, ArtifactObjection(show, manifest, a), TicketObjection(blockers, t));
    var p := s.policy;
    assert p[EngineArtifactAccountability := a][TicketedBlockingVulnerabilities := t]
        == p[TicketedBlockingVulnerabilities := t][EngineArtifactAccountability := a];
  }
}
