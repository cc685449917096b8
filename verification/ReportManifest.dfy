/** How the report manifest describes engine artifacts, and what that means for the two gates that read it. */
module ReportManifest {
  import opened Strings
  import opened Json
  import opened Lists
  import opened QualityGate
  import opened ReleaseOverlays
  import opened LegacyGate

  /** What the verification helpers say of an artifact's content. */
  datatype Content = Content(
    hashVerified: bool, engine: string, runId: string, governed: bool, isolationRequired: bool, isolationComplete: bool)

  /** A stored execution artifact; its content may fail to be a dict. */
  datatype Row = Row(artifactType: string, content: Option<Content>)

  datatype Indexed = Indexed(content: Option<Content>, count: nat)

  // ----- The index by artifact type: the first row's content, and how many rows there are -----

  function RowsOf(rows: seq<Row>, artifactType: string): seq<Row> {
    if rows == [] then []
    else (if rows[0].artifactType == artifactType then [rows[0]] else []) + RowsOf(rows[1..], artifactType)
  }

  lemma {:induction false} RowsOfAppend(rows: seq<Row>, last: Row, artifactType: string)
    ensures RowsOf(rows + [last], artifactType) == RowsOf(rows, artifactType) + RowsOf([last], artifactType)
  {
    if rows == [] {
      assert rows + [last] == [last];
    } else {
      RowsOfAppend(rows[1..], last, artifactType);
      assert (rows + [last])[1..] == rows[1..] + [last];
    }
  }

  ghost predicate Indexes(index: map<string, Indexed>, rows: seq<Row>) {
    forall t: string ::
      && (t in index <==> t != "" && RowsOf(rows, t) != [])
      && (t in index ==> index[t] == Indexed(RowsOf(rows, t)[0].content, |RowsOf(rows, t)|))
  }

  method ExecutionArtifactIndex(rows: seq<Row>) returns (index: map<string, Indexed>)
    ensures Indexes(index, rows)
  {
    index := map[];
    for i := 0 to |rows|
      invariant Indexes(index, rows[..i])
    {
      var row := rows[i];
      NextPrefix(rows, i);
      forall t: string
        ensures RowsOf(rows[..i + 1], t) == RowsOf(rows[..i], t) + if row.artifactType == t then [row] else []
      {
        RowsOfAppend(rows[..i], row, t);
      }
      var t := row.artifactType;
      if t == "" { continue; }
      if t in index {
        index := index[t := index[t].(count := index[t].count + 1)];
      } else {
        index := index[t := Indexed(row.content, 1)];
      }
    }
    assert rows[..|rows|] == rows;
  }

  // ----- One artifact's description -----

  function Verification(c: Content, engine: string, runId: string): string {
    if !c.hashVerified then "unverified"
    else if c.engine != engine then "engine_mismatch"
    else if c.runId != "" && c.runId != runId then "run_mismatch"
    else "verified"
  }

  function StatusOf(stored: Indexed, engine: string, runId: string): string {
    if stored.content.None? then "missing"
    else
      var c := stored.content.value;
      if stored.count > 1 then "duplicate_artifact"
      else if Verification(c, engine, runId) != "verified" then Verification(c, engine, runId)
      else if !c.governed then "artifact_content_governance_failed"
      else if c.isolationRequired && !c.isolationComplete then "worker_isolation_incomplete"
      else "verified"
  }

  function Lookup(index: map<string, Indexed>, artifactType: string): Indexed {
    if artifactType in index then index[artifactType] else Indexed(None, 0)
  }

  function Describe(engine: string, artifactType: string, stored: Indexed, runId: string): Value {
    var status := StatusOf(stored, engine, runId);
    Obj(map["engine" := Str(engine), "artifact_type" := Str(artifactType), "present" := Bool(stored.content.Some?),
            "verified" := Bool(status == "verified"), "status" := Str(status)])
  }

  /** The defects that the gates see in a description are read off its status. */
  lemma DefectsByStatus(engine: string, artifactType: string, stored: Indexed, runId: string)
    ensures var a, status := Describe(engine, artifactType, stored, runId), StatusOf(stored, engine, runId);
            && (Shows(Missing, a) <==> stored.content.None?)
            && (Shows(NotVerified, a) <==> stored.content.Some? && status != "verified")
            && (Shows(Duplicated, a) <==> status == "duplicate_artifact")
            && (Shows(NotIsolated, a) <==> status == "worker_isolation_incomplete")
            && (Shows(NotGoverned, a) <==> status == "artifact_content_governance_failed")
  {
    var a, status := Describe(engine, artifactType, stored, runId), StatusOf(stored, engine, runId);
    assert Get(a, "status") == Str(status);
    assert Get(a, "present") == Bool(stored.content.Some?);
    assert Get(a, "verified") == Bool(status == "verified");
    StatusWhenPresent(stored, engine, runId);
  }

  lemma StatusWhenPresent(stored: Indexed, engine: string, runId: string)
    ensures StatusOf(stored, engine, runId) == "missing" <==> stored.content.None?
    ensures StatusOf(stored, engine, runId) == "unverified" ==> stored.content.Some?
    ensures stored.content.None? ==> StatusOf(stored, engine, runId) !in {"verified", "unverified"}
  {
    assert |"missing"| == 7 && |"verified"| == 8 && |"unverified"| == 10 && |"run_mismatch"| == 12;
    assert |"engine_mismatch"| == 15 && |"duplicate_artifact"| == 18;
    assert |"worker_isolation_incomplete"| == 27 && |"artifact_content_governance_failed"| == 34;
  }

  /** The content is authentic and from this engine and run. */
  predicate Genuine(c: Content, engine: string, runId: string) {
    c.hashVerified && c.engine == engine && (c.runId == "" || c.runId == runId)
  }

  /** Nothing is wrong with the only artifact of its type. */
  predicate Sound(stored: Indexed, engine: string, runId: string) {
    && stored.content.Some? && stored.count <= 1 && Genuine(stored.content.value, engine, runId)
    && stored.content.value.governed
    && (stored.content.value.isolationRequired ==> stored.content.value.isolationComplete)
  }

  lemma VerificationExactly(c: Content, engine: string, runId: string)
    ensures Verification(c, engine, runId) == "verified" <==> Genuine(c, engine, runId)
    ensures Verification(c, engine, runId) in {"verified", "unverified", "engine_mismatch", "run_mismatch"}
  {
    assert |"verified"| == 8 && |"unverified"| == 10 && |"engine_mismatch"| == 15 && |"run_mismatch"| == 12;
  }

  /** A description names its engine and type, and the gates see in it what the stored artifact deserves: missing when
      there is none, duplicated when there are several, and of a single one the first thing that is wrong with it;
      verified means that nothing is. */
  lemma DescribedDefects(engine: string, artifactType: string, stored: Indexed, runId: string)
    ensures var a := Describe(engine, artifactType, stored, runId);
            && Get(a, "engine") == Str(engine) && Get(a, "artifact_type") == Str(artifactType)
            && (Shows(Missing, a) <==> stored.content.None?)
            && (Shows(Duplicated, a) <==> stored.content.Some? && stored.count > 1)
            && (Shows(NotGoverned, a) <==>
                  stored.content.Some? && stored.count <= 1 && Genuine(stored.content.value, engine, runId)
                  && !stored.content.value.governed)
            && (Shows(NotIsolated, a) <==>
                  stored.content.Some? && stored.count <= 1 && Genuine(stored.content.value, engine, runId)
                  && stored.content.value.governed && stored.content.value.isolationRequired
                  && !stored.content.value.isolationComplete)
            && (Shows(NotVerified, a) <==> stored.content.Some? && !Sound(stored, engine, runId))
  {
    var a := Describe(engine, artifactType, stored, runId);
    DefectsByStatus(engine, artifactType, stored, runId);
    assert |"engine"| == 6 && |"artifact_type"| == 13 && |"present"| == 7 && |"verified"| == 8;
    assert Get(a, "engine") == Str(engine) && Get(a, "artifact_type") == Str(artifactType) by {
      assert "engine"[0] == 'e' && "status"[0] == 's';
    }
    if stored.content.Some? { StatusExactly(stored, engine, runId); } else { StatusWhenMissing(); }
  }

  lemma StatusWhenMissing()
    ensures "missing" !in {"duplicate_artifact", "worker_isolation_incomplete", "artifact_content_governance_failed"}
  {
    assert |"missing"| == 7 && |"duplicate_artifact"| == 18;
    assert |"worker_isolation_incomplete"| == 27 && |"artifact_content_governance_failed"| == 34;
  }

  lemma StatusExactly(stored: Indexed, engine: string, runId: string)
    requires stored.content.Some?
    ensures var status, c := StatusOf(stored, engine, runId), stored.content.value;
            && (status == "verified" <==> Sound(stored, engine, runId))
            && (status == "duplicate_artifact" <==> stored.count > 1)
            && (status == "artifact_content_governance_failed" <==>
                  stored.count <= 1 && Genuine(c, engine, runId) && !c.governed)
            && (status == "worker_isolation_incomplete" <==>
                  stored.count <= 1 && Genuine(c, engine, runId) && c.governed && c.isolationRequired
                  && !c.isolationComplete)
  {
    VerificationExactly(stored.content.value, engine, runId);
    assert |"verified"| == 8 && |"unverified"| == 10 && |"engine_mismatch"| == 15 && |"run_mismatch"| == 12;
    assert |"duplicate_artifact"| == 18 && |"worker_isolation_incomplete"| == 27;
    assert |"artifact_content_governance_failed"| == 34;
  }

  // ----- The required artifacts of a run, with the counts that decide completeness -----

  /** An engine of the plan that is ready, with the type of the artifact it has to leave. */
  datatype Engine = Engine(name: string, artifactType: string)

  function Descriptions(engines: seq<Engine>, index: map<string, Indexed>, runId: string): seq<Value> {
    seq(|engines|, i requires 0 <= i < |engines| =>
      Describe(engines[i].name, engines[i].artifactType, Lookup(index, engines[i].artifactType), runId))
  }

  lemma {:induction false} DefectiveAppend(d: Defect, artifacts: seq<Value>, last: Value)
    ensures |Defective(d, artifacts + [last])| == |Defective(d, artifacts)| + |Defective(d, [last])|
  {
    if artifacts == [] {
      assert artifacts + [last] == [last];
    } else {
      DefectiveAppend(d, artifacts[1..], last);
      assert (artifacts + [last])[1..] == artifacts[1..] + [last];
      assert (artifacts + [last])[0] == artifacts[0];
    }
  }

  /** One more description, and what it adds to the three counts that matter. */
  lemma CountNext(engines: seq<Engine>, index: map<string, Indexed>, runId: string, i: nat)
    requires i < |engines|
    ensures var e, stored := engines[i], Lookup(index, engines[i].artifactType);
            var detail, status := Describe(e.name, e.artifactType, stored, runId), StatusOf(stored, e.name, runId);
            var before := Descriptions(engines[..i], index, runId);
            && Descriptions(engines[..i + 1], index, runId) == before + [detail]
            && |Defective(Missing, before + [detail])|
              == |Defective(Missing, before)| + (if stored.content.None? then 1 else 0)
            && |Defective(NotVerified, before + [detail])|
               == |Defective(NotVerified, before)| + (if stored.content.Some? && status != "verified" then 1 else 0)
            && |Defective(Duplicated, before + [detail])|
               == |Defective(Duplicated, before)| + (if status == "duplicate_artifact" then 1 else 0)
  {
    var e := engines[i];
    var stored := Lookup(index, e.artifactType);
    var detail := Describe(e.name, e.artifactType, stored, runId);
    var before := Descriptions(engines[..i], index, runId);
    assert Descriptions(engines[..i + 1], index, runId) == before + [detail];
    DefectsByStatus(e.name, e.artifactType, stored, runId);
    DefectiveNext(Missing, before, detail);
    DefectiveNext(NotVerified, before, detail);
    DefectiveNext(Duplicated, before, detail);
  }

  lemma DefectiveNext(d: Defect, artifacts: seq<Value>, last: Value)
    ensures |Defective(d, artifacts + [last])| == |Defective(d, artifacts)| + if Shows(d, last) then 1 else 0
  {
    DefectiveAppend(d, artifacts, last);
    assert [last][1..] == [];
  }

  /** Describes the required artifacts and counts the missing, unverified and duplicate ones; nothing else counts
      towards completeness. */
  method AccountForEngines(engines: seq<Engine>, index: map<string, Indexed>, runId: string, planPresent: bool)
    returns (details: seq<Value>, complete: bool)
    ensures details == Descriptions(engines, index, runId)
    ensures complete <==> planPresent && Defective(Missing, details) == [] && Defective(NotVerified, details) == []
                          && Defective(Duplicated, details) == []
  {
    var missing, unverified, duplicates := 0, 0, 0;
    details := [];
    for i := 0 to |engines|
      invariant details == Descriptions(engines[..i], index, runId)
      invariant missing == |Defective(Missing, details)| && unverified == |Defective(NotVerified, details)|
      invariant duplicates == |Defective(Duplicated, details)|
    {
      var e := engines[i];
      var stored := Lookup(index, e.artifactType);
      var detail, status := Describe(e.name, e.artifactType, stored, runId), StatusOf(stored, e.name, runId);
      CountNext(engines, index, runId, i);
      if stored.content.None? {
        missing := missing + 1;
      } else if status != "verified" {
        unverified := unverified + 1;
      }
      if status == "duplicate_artifact" { duplicates := duplicates + 1; }
      details := details + [detail];
    }
    assert engines[..|engines|] == engines;
    complete := planPresent && missing == 0 && unverified == 0 && duplicates == 0;
  }
}
