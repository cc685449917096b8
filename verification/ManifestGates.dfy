/** The manifest as the gates build it for themselves, and what the two gates make of it. */
module ManifestGates {
  import opened Strings
  import opened Json
  import opened Lists
  import opened QualityGate
  import opened ReleaseOverlays
  import opened LegacyGate
  import opened ReportManifest
  import Coverage = CoverageGaps

  // ----- From the engine plan of the run to the manifest -----

  const ORDER: seq<string> := ["templates", "authorization_replay", "schemathesis", "nuclei", "zap", "passive"]

  const ARTIFACT_TYPES: map<string, string> := map[
    "templates" := "templates_execution", "schemathesis" := "schemathesis_execution", "nuclei" := "nuclei_execution",
    "zap" := "zap_execution", "passive" := "passive_findings"]

  const REPLAY := "authorization_replay"

  /** One entry of the engine plan; a later entry of the same engine replaces an earlier one. */
  datatype PlanItem = PlanItem(engine: string, status: string)

  function StatusIn(plan: seq<PlanItem>, engine: string): string {
    if plan == [] then ""
    else
      var last := plan[|plan| - 1];
      if last.engine == engine then last.status else StatusIn(plan[..|plan| - 1], engine)
  }

  predicate Ready(plan: seq<PlanItem>, engine: string) {
    engine != "passive" && StatusIn(plan, engine) == "ready"
  }

  predicate Continuous(plan: seq<PlanItem>, engine: string) {
    StatusIn(plan, engine) in {"available", "continuous"}
  }

  function ReadyAmong(plan: seq<PlanItem>, names: seq<string>): (ready: seq<string>)
    ensures forall e :: e in ready <==> e in names && Ready(plan, e)
  {
    if names == [] then []
    else
      assert names == [names[0]] + names[1..];
      (if Ready(plan, names[0]) then [names[0]] else []) + ReadyAmong(plan, names[1..])
  }

  function ContinuousAmong(plan: seq<PlanItem>, names: seq<string>): (continuous: seq<string>)
    ensures forall e :: e in continuous <==> e in names && Continuous(plan, e)
  {
    if names == [] then []
    else
      assert names == [names[0]] + names[1..];
      (if Continuous(plan, names[0]) then [names[0]] else []) + ContinuousAmong(plan, names[1..])
  }

  /** The engines with the types of their artifacts; none when one has no type, which raises. */
  function Typed(names: seq<string>): (engines: Option<seq<Engine>>)
    ensures engines.None? <==> exists e :: e in names && e !in ARTIFACT_TYPES
  {
    if names == [] then Some([])
    else
      assert names == [names[0]] + names[1..];
      if names[0] !in ARTIFACT_TYPES then None
      else
        match Typed(names[1..])
        case None => None
        case Some(rest) => Some([Engine(names[0], ARTIFACT_TYPES[names[0]])] + rest)
  }

  predicate AllThere(details: seq<Value>) {
    Defective(Missing, details) == [] && Defective(NotVerified, details) == [] && Defective(Duplicated, details) == []
  }

  /** The fields of the dict that the gates read; `selection` is built elsewhere and `rest` holds counts and names. */
  function Accounted(plan: seq<PlanItem>, required: seq<Value>, continuous: seq<Value>, selection: Value,
                     rest: map<string, Value>)
    : Value
  {
    Obj(rest + map[
      "required" := Bool(plan != []), "complete" := Bool(plan != [] && AllThere(required)),
      "required_artifacts" := Arr(required), "continuous_artifacts" := Arr(continuous),
      "selection_accountability" := selection])
  }

  function BuiltManifest(plan: seq<PlanItem>, index: map<string, Indexed>, runId: string, selection: Value,
                         rest: map<string, Value>): Option<Value> {
    var ready, continuous := Typed(ReadyAmong(plan, ORDER)), Typed(ContinuousAmong(plan, ORDER));
    if ready.None? || continuous.None? then None
    else
      var required := Descriptions(ready.value, index, runId);
      var others := Descriptions(continuous.value, index, runId);
      Some(Obj(map["engine_accountability" := Accounted(plan, required, others, selection, rest)]))
  }

  method BuildReportArtifactManifest(plan: seq<PlanItem>, rows: seq<Row>, runId: string, selection: Value,
                                     rest: map<string, Value>)
    returns (manifest: Option<Value>)
    ensures exists index :: Indexes(index, rows) && manifest == BuiltManifest(plan, index, runId, selection, rest)
  {
    var index := ExecutionArtifactIndex(rows);
    var ready := Typed(ReadyAmong(plan, ORDER));
    if ready.None? { return None; }
    var required, complete := AccountForEngines(ready.value, index, runId, plan != []);
    var continuous := Typed(ContinuousAmong(plan, ORDER));
    if continuous.None? { return None; }
    var others, _ := AccountForEngines(continuous.value, index, runId, plan != []);
    assert complete == (plan != [] && AllThere(required));
    manifest := Some(Obj(map["engine_accountability" := Accounted(plan, required, others, selection, rest)]));
  }

  lemma OnlyReplayHasNoType(e: string)
    requires e in ORDER
    ensures e in ARTIFACT_TYPES <==> e != REPLAY
  {
    assert ORDER[0] == "templates" && ORDER[1] == REPLAY && ORDER[2] == "schemathesis" && ORDER[3] == "nuclei";
    assert ORDER[4] == "zap" && ORDER[5] == "passive";
    assert |"templates"| == 9 && |REPLAY| == 20 && |"schemathesis"| == 12 && |"nuclei"| == 6 && |"zap"| == 3
      && |"passive"| == 7;
  }

  /** Building the manifest raises exactly when the plan has the replay engine ready or running continuously, since that
      engine is in the execution order but has no artifact type. */
  lemma BuildRaisesExactly(plan: seq<PlanItem>, index: map<string, Indexed>, runId: string, selection: Value,
                           rest: map<string, Value>)
    ensures BuiltManifest(plan, index, runId, selection, rest).None? <==>
              StatusIn(plan, REPLAY) in {"ready", "available", "continuous"}
  {
    assert ORDER[1] == REPLAY;
    OnlyReplayHasNoType(REPLAY);
    assert |REPLAY| == 20 && |"passive"| == 7;
    forall e | e in ORDER && e !in ARTIFACT_TYPES
      ensures e == REPLAY
    {
      OnlyReplayHasNoType(e);
    }
  }

  lemma ReplayPlanRaises(index: map<string, Indexed>, runId: string, selection: Value, rest: map<string, Value>)
    ensures BuiltManifest([PlanItem(REPLAY, "ready")], index, runId, selection, rest).None?
  {
    BuildRaisesExactly([PlanItem(REPLAY, "ready")], index, runId, selection, rest);
  }

  // ----- What a complete manifest says about the stored artifacts -----

  predicate IsLast(plan: seq<PlanItem>, engine: string, i: nat) {
    i < |plan| && plan[i].engine == engine && forall j :: i < j < |plan| ==> plan[j].engine != engine
  }

  /** The last entry of the plan for the engine has this status. */
  ghost predicate PlannedAs(plan: seq<PlanItem>, engine: string, status: string) {
    exists i: nat :: IsLast(plan, engine, i) && plan[i].status == status
  }

  lemma {:induction false} StatusOfLast(plan: seq<PlanItem>, engine: string, i: nat)
    requires IsLast(plan, engine, i)
    ensures StatusIn(plan, engine) == plan[i].status
  {
    if i < |plan| - 1 { StatusOfLast(plan[..|plan| - 1], engine, i); }
  }

  lemma {:induction false} LastEntry(plan: seq<PlanItem>, engine: string) returns (i: nat)
    requires StatusIn(plan, engine) != ""
    ensures IsLast(plan, engine, i)
  {
    i := |plan| - 1;
    if plan[i].engine != engine { i := LastEntry(plan[..i], engine); }
  }

  lemma StatusInExactly(plan: seq<PlanItem>, engine: string, status: string)
    requires status != ""
    ensures StatusIn(plan, engine) == status <==> PlannedAs(plan, engine, status)
  {
    if StatusIn(plan, engine) == status {
      var i := LastEntry(plan, engine);
      StatusOfLast(plan, engine, i);
    } else if PlannedAs(plan, engine, status) {
      var i: nat :| IsLast(plan, engine, i) && plan[i].status == status;
      StatusOfLast(plan, engine, i);
    }
  }

  /** If the plan has the engine ready, exactly one artifact of the type is stored: authentic, from this engine and run,
      governed, and isolated if that is required. */
  ghost predicate Delivers(plan: seq<PlanItem>, rows: seq<Row>, runId: string, engine: string, artifactType: string) {
    PlannedAs(plan, engine, "ready") ==>
      exists c: Content :: RowsOf(rows, artifactType) == [Row(artifactType, Some(c))]
        && c.hashVerified && c.engine == engine && (c.runId == "" || c.runId == runId)
        && c.governed && (c.isolationRequired ==> c.isolationComplete)
  }

  lemma {:induction false} RowsOfType(rows: seq<Row>, artifactType: string)
    ensures forall row :: row in RowsOf(rows, artifactType) ==> row.artifactType == artifactType
  {
    if rows != [] { RowsOfType(rows[1..], artifactType); }
  }

  lemma SoundExactly(index: map<string, Indexed>, rows: seq<Row>, plan: seq<PlanItem>, runId: string, engine: string,
                     artifactType: string)
    requires Indexes(index, rows) && artifactType != ""
    ensures (PlannedAs(plan, engine, "ready") ==> Sound(Lookup(index, artifactType), engine, runId)) <==>
              Delivers(plan, rows, runId, engine, artifactType)
  {
    var found := RowsOf(rows, artifactType);
    RowsOfType(rows, artifactType);
    if found != [] { assert found[0] in found; }
    if Sound(Lookup(index, artifactType), engine, runId) {
      var c := Lookup(index, artifactType).content.value;
      assert found == [Row(artifactType, Some(c))];
    }
  }

  lemma {:induction false} TypedExactly(names: seq<string>)
    requires Typed(names).Some?
    ensures |Typed(names).value| == |names|
    ensures forall i :: 0 <= i < |names| ==>
              names[i] in ARTIFACT_TYPES && Typed(names).value[i] == Engine(names[i], ARTIFACT_TYPES[names[i]])
  {
    if names != [] { TypedExactly(names[1..]); }
  }

  lemma AllThereExactly(names: seq<string>, index: map<string, Indexed>, runId: string)
    requires Typed(names).Some?
    ensures AllThere(Descriptions(Typed(names).value, index, runId)) <==>
              forall name :: name in names ==> Sound(Lookup(index, ARTIFACT_TYPES[name]), name, runId)
  {
    var engines := Typed(names).value;
    var details := Descriptions(engines, index, runId);
    TypedExactly(names);
    forall i | 0 <= i < |names|
      ensures Sound(Lookup(index, ARTIFACT_TYPES[names[i]]), names[i], runId) <==>
                !Shows(Missing, details[i]) && !Shows(NotVerified, details[i]) && !Shows(Duplicated, details[i])
    {
      DescribedDefects(names[i], ARTIFACT_TYPES[names[i]], Lookup(index, ARTIFACT_TYPES[names[i]]), runId);
    }
    forall d
      ensures Defective(d, details) == [] <==> forall i :: 0 <= i < |details| ==> !Shows(d, details[i])
    {
      assert forall i :: 0 <= i < |details| ==> details[i] in details;
      if Defective(d, details) != [] { assert Defective(d, details)[0] in Defective(d, details); }
    }
  }

  lemma ActiveEngines(plan: seq<PlanItem>)
    requires StatusIn(plan, REPLAY) != "ready"
    ensures forall e :: e in ReadyAmong(plan, ORDER) <==>
              e in {"templates", "schemathesis", "nuclei", "zap"} && StatusIn(plan, e) == "ready"
    ensures ARTIFACT_TYPES["templates"] == "templates_execution" && ARTIFACT_TYPES["nuclei"] == "nuclei_execution"
    ensures ARTIFACT_TYPES["schemathesis"] == "schemathesis_execution" && ARTIFACT_TYPES["zap"] == "zap_execution"
  {
    assert ORDER[0] == "templates" && ORDER[1] == REPLAY && ORDER[2] == "schemathesis" && ORDER[3] == "nuclei";
    assert ORDER[4] == "zap" && ORDER[5] == "passive";
    assert |"templates"| == 9 && |REPLAY| == 20 && |"schemathesis"| == 12 && |"nuclei"| == 6 && |"zap"| == 3
      && |"passive"| == 7;
  }

  /** A manifest is complete exactly when there is an engine plan and every engine that it has ready, the passive one
      apart, delivers. */
  lemma CompleteMeansDelivered(plan: seq<PlanItem>, rows: seq<Row>, index: map<string, Indexed>, runId: string,
                               selection: Value, rest: map<string, Value>)
    requires Indexes(index, rows)
    ensures var built := BuiltManifest(plan, index, runId, selection, rest);
            built.Some? ==>
              (Complete(built.value) <==>
                 && plan != []
                 && Delivers(plan, rows, runId, "templates", "templates_execution")
                 && Delivers(plan, rows, runId, "schemathesis", "schemathesis_execution")
                 && Delivers(plan, rows, runId, "nuclei", "nuclei_execution")
                 && Delivers(plan, rows, runId, "zap", "zap_execution"))
  {
    var built := BuiltManifest(plan, index, runId, selection, rest);
    if built.Some? {
      BuildRaisesExactly(plan, index, runId, selection, rest);
      ActiveEngines(plan);
      var ready, others := Typed(ReadyAmong(plan, ORDER)).value, Typed(ContinuousAmong(plan, ORDER)).value;
      BuiltFields(plan, Descriptions(ready, index, runId), Descriptions(others, index, runId), selection, rest);
      AllThereExactly(ReadyAmong(plan, ORDER), index, runId);
      DeliveredByType(plan, rows, index, runId, "templates", "templates_execution");
      DeliveredByType(plan, rows, index, runId, "schemathesis", "schemathesis_execution");
      DeliveredByType(plan, rows, index, runId, "nuclei", "nuclei_execution");
      DeliveredByType(plan, rows, index, runId, "zap", "zap_execution");
    }
  }

  lemma DeliveredByType(plan: seq<PlanItem>, rows: seq<Row>, index: map<string, Indexed>, runId: string, engine: string,
                        artifactType: string)
    requires Indexes(index, rows) && artifactType != ""
    ensures Delivers(plan, rows, runId, engine, artifactType) <==>
              (StatusIn(plan, engine) == "ready" ==> Sound(Lookup(index, artifactType), engine, runId))
  {
    assert |"ready"| == 5;
    StatusInExactly(plan, engine, "ready");
    SoundExactly(index, rows, plan, runId, engine, artifactType);
  }

  // ----- The two gates on a built manifest -----

  /** On built descriptions every defect shows as missing or as unverified. */
  lemma EveryDefectIsCounted(engines: seq<Engine>, index: map<string, Indexed>, runId: string, a: Value, d: Defect)
    requires a in Descriptions(engines, index, runId) && Shows(d, a)
    ensures Shows(Missing, a) || Shows(NotVerified, a)
  {
    var i :| 0 <= i < |engines| && a == Descriptions(engines, index, runId)[i];
    var e := engines[i];
    DescribedDefects(e.name, e.artifactType, Lookup(index, e.artifactType), runId);
    StatusWhenPresent(Lookup(index, e.artifactType), e.name, runId);
  }

  lemma CompleteExactly(engines: seq<Engine>, index: map<string, Indexed>, runId: string)
    ensures var details := Descriptions(engines, index, runId);
            (Defective(Missing, details) == [] && Defective(NotVerified, details) == []
              && Defective(Duplicated, details) == []
             <==> ArtifactBlocks(details) == [])
  {
    var details := Descriptions(engines, index, runId);
    NoBlocksExactly(details);
    forall d
      ensures Defective(d, details) == [] <==> forall a :: a in details ==> !Shows(d, a)
    {
      if Defective(d, details) != [] { assert Defective(d, details)[0] in Defective(d, details); }
    }
    forall a, d | a in details && Shows(d, a)
      ensures Shows(Missing, a) || Shows(NotVerified, a)
    {
      EveryDefectIsCounted(engines, index, runId, a, d);
    }
  }

  lemma {:induction false} AllAreDicts(items: seq<Value>)
    requires forall i :: 0 <= i < |items| ==> items[i].Obj?
    ensures OnlyDicts(items) == items
  {
    if items != [] { AllAreDicts(items[1..]); }
  }

  /** The fields by which the gates go, as they are read back. */
  lemma AccountedFields(plan: seq<PlanItem>, required: seq<Value>, continuous: seq<Value>, selection: Value,
                        rest: map<string, Value>)
    ensures var a := Accounted(plan, required, continuous, selection, rest);
            && a.Obj? && Get(a, "required") == Bool(plan != [])
            && Get(a, "complete") == Bool(plan != [] && AllThere(required))
            && Get(a, "required_artifacts") == Arr(required) && Get(a, "continuous_artifacts") == Arr(continuous)
            && Get(a, "selection_accountability") == selection
  {
    assert |"required"| == 8 && |"complete"| == 8 && "required"[0] == 'r' && "complete"[0] == 'c';
    assert |"required_artifacts"| == 18 && |"continuous_artifacts"| == 20 && |"selection_accountability"| == 24;
  }

  lemma ReadFields(a: Value)
    requires a.Obj?
    ensures var m := Obj(map["engine_accountability" := a]);
            && (Demanded(m, true) <==> Get(a, "required") == Bool(true))
            && (Complete(m) <==> Get(a, "complete") == Bool(true))
            && RequiredArtifacts(m) == Dicts(Get(a, "required_artifacts"))
            && ContinuousArtifacts(m) == Dicts(Get(a, "continuous_artifacts"))
            && Selection(m) == Get(a, "selection_accountability")
  {
    var m := Obj(map["engine_accountability" := a]);
    assert Accountability(m) == a;
  }

  lemma BuiltFields(plan: seq<PlanItem>, required: seq<Value>, continuous: seq<Value>, selection: Value,
                    rest: map<string, Value>)
    requires forall i :: 0 <= i < |required| ==> required[i].Obj?
    requires forall i :: 0 <= i < |continuous| ==> continuous[i].Obj?
    ensures var m := Obj(map["engine_accountability" := Accounted(plan, required, continuous, selection, rest)]);
            && (Demanded(m, true) <==> plan != [])
            && (Complete(m) <==> plan != [] && AllThere(required))
            && RequiredArtifacts(m) == required && ContinuousArtifacts(m) == continuous && Selection(m) == selection
  {
    AllAreDicts(required);
    AllAreDicts(continuous);
    AccountedFields(plan, required, continuous, selection, rest);
    ReadFields(Accounted(plan, required, continuous, selection, rest));
  }

  /** What the newer gate demands beyond the older one. */
  ghost predicate BeyondRequired(manifest: Value) {
    && (forall a :: Carries(manifest, "continuous_artifacts", a) ==>
          Get(a, "status") !in {Str("artifact_content_governance_failed"), Str("worker_isolation_incomplete"),
                                Str("duplicate_artifact")})
    && (SelectionEntry(manifest, "scan_plan_context_present") == Bool(true) ==>
          SelectionEntry(manifest, "selection_accountability_complete") == Bool(true) && !SomeGap(manifest))
  }

  lemma BuiltParts(plan: seq<PlanItem>, index: map<string, Indexed>, runId: string, selection: Value,
                   rest: map<string, Value>)
    requires BuiltManifest(plan, index, runId, selection, rest).Some?
    ensures var m := BuiltManifest(plan, index, runId, selection, rest).value;
            && (Demanded(m, true) <==> plan != [])
            && (Complete(m) <==> plan != [] && ArtifactBlocks(RequiredArtifacts(m)) == [])
            && (plan == [] ==> RequiredArtifacts(m) == [])
  {
    var ready, continuous := Typed(ReadyAmong(plan, ORDER)).value, Typed(ContinuousAmong(plan, ORDER)).value;
    BuiltFields(plan, Descriptions(ready, index, runId), Descriptions(continuous, index, runId), selection, rest);
    CompleteExactly(ready, index, runId);
    if plan == [] { NothingReady(ORDER); }
  }

  lemma {:induction false} NothingReady(names: seq<string>)
    ensures ReadyAmong([], names) == []
  {
    assert |"ready"| == 5;
    if names != [] { NothingReady(names[1..]); }
  }

  lemma AccountedByParts(m: Value)
    requires Complete(m) && ArtifactBlocks(RequiredArtifacts(m)) == []
    ensures ArtifactsAccounted(m) <==> BeyondRequired(m)
  {
    NoBlocksMeansInOrder(m);
  }

  lemma AgreeByParts(show: Value -> string, m: Value, planned: bool)
    requires Demanded(m, true) <==> planned
    requires Complete(m) <==> planned && ArtifactBlocks(RequiredArtifacts(m)) == []
    requires !planned ==> RequiredArtifacts(m) == []
    ensures ArtifactObjection(show, m, true).None? <==>
              !planned || (ArtifactBlocks(RequiredArtifacts(m)) == [] && BeyondRequired(m))
    ensures ArtifactObjection(show, m, true).None? ==> ArtifactBlocks(RequiredArtifacts(m)) == []
  {
    NoDefectExactly(show, m);
    if Complete(m) { AccountedByParts(m); }
  }

  /** On every manifest that is built, with an engine plan or without, the older gate has no objection to an engine
      artifact whenever the newer gate's overlay has none; and with a plan the newer gate asks for just that and for its
      demands on continuous artifacts and on selection. */
  lemma GatesAgreeOnBuiltManifests(show: Value -> string, plan: seq<PlanItem>,
                                   index: map<string, Indexed>, runId: string,
                                   selection: Value, rest: map<string, Value>)
    ensures var built := BuiltManifest(plan, index, runId, selection, rest);
            built.Some? ==>
              var m := built.value;
              && (ArtifactObjection(show, m, true).None? <==>
                    plan == [] || (ArtifactBlocks(RequiredArtifacts(m)) == [] && BeyondRequired(m)))
              && (ArtifactObjection(show, m, true).None? ==> ArtifactBlocks(RequiredArtifacts(m)) == [])
  {
    var built := BuiltManifest(plan, index, runId, selection, rest);
    if built.Some? {
      BuiltParts(plan, index, runId, selection, rest);
      AgreeByParts(show, built.value, plan != []);
    }
  }

  // ----- Any manifest -----

  /** On any manifest that the overlay accepts, the older gate agrees exactly when no required artifact shows
      as missing or as unverified: for those two the overlay takes the manifest's word for completeness. */
  lemma OlderGateAgreesExactly(manifest: Value)
    requires ArtifactsAccounted(manifest)
    ensures ArtifactBlocks(RequiredArtifacts(manifest)) == [] <==>
              forall a :: Carries(manifest, "required_artifacts", a) ==>
                && Get(a, "status") !in {Str("missing"), Str("unverified")} && Get(a, "present") != Bool(false)
                && (Get(a, "present") == Bool(true) ==> Get(a, "verified") == Bool(true))
  {
    NoBlocksMeansInOrder(manifest);
  }

  const LOST := Obj(map["status" := Str("missing")])

  const INCONSISTENT := Obj(map["engine_accountability" :=
    Obj(map["required" := Bool(true), "complete" := Bool(true), "required_artifacts" := Arr([LOST])])])

  lemma InconsistentParts()
    ensures RequiredArtifacts(INCONSISTENT) == [LOST] && ContinuousArtifacts(INCONSISTENT) == []
    ensures Demanded(INCONSISTENT, true) && Complete(INCONSISTENT) && !PlanContext(INCONSISTENT)
  {
    assert OnlyDicts([LOST]) == [LOST] + OnlyDicts([LOST][1..]);
  }

  lemma LostIsOnlyMissing()
    ensures Shows(Missing, LOST) && !Shows(Duplicated, LOST) && !Shows(NotIsolated, LOST) && !Shows(NotGoverned, LOST)
  {
    assert Get(LOST, "status") == Str("missing");
    assert |"missing"| == 7 && |"duplicate_artifact"| == 18;
    assert |"worker_isolation_incomplete"| == 27 && |"artifact_content_governance_failed"| == 34;
  }

  /** There are manifests, though none that is built, on which the gates come apart. */
  lemma GatesDifferOnInconsistentManifests()
    ensures exists manifest :: Demanded(manifest, true) && ArtifactsAccounted(manifest)
                            && ArtifactBlocks(RequiredArtifacts(manifest)) != []
  {
    InconsistentParts();
    LostIsOnlyMissing();
    NoBlocksExactly([LOST]);
    assert LOST in [LOST];
    assert Demanded(INCONSISTENT, true) && ArtifactsAccounted(INCONSISTENT);
  }
}
