/** The older gate endpoint: it lists reasons to block and classifies the same artifacts in its own way. */
module LegacyGate {
  import opened Strings
  import opened Json
  import opened Lists
  import opened GatePolicy
  import opened QualityGate
  import opened ReleaseOverlays
  import opened GateResponse

  datatype Block =
    | MissingBoundary(templateId: string)
    | Artifact(kind: Defect, engine: Value, artifactType: Value)
    | VulnerableFinding(templateId: string, severity: string)

  // ----- Engine artifacts -----

  /** One kind per artifact: a missing artifact is nothing else, and verification comes last. */
  function KindOf(artifact: Value): Option<Defect> {
    if Shows(Missing, artifact) then Some(Missing)
    else if Shows(Duplicated, artifact) then Some(Duplicated)
    else if Shows(NotIsolated, artifact) then Some(NotIsolated)
    else if Shows(NotGoverned, artifact) then Some(NotGoverned)
    else if Shows(NotVerified, artifact) then Some(NotVerified)
    else None
  }

  function BlockFor(artifact: Value): seq<Block> {
    match KindOf(artifact)
    case None => []
    case Some(kind) => [Artifact(kind, Get(artifact, "engine"), Get(artifact, "artifact_type"))]
  }

  function ArtifactBlocks(artifacts: seq<Value>): seq<Block> {
    if artifacts == [] then [] else BlockFor(artifacts[0]) + ArtifactBlocks(artifacts[1..])
  }

  lemma {:induction false} ArtifactBlocksAppend(artifacts: seq<Value>, last: Value)
    ensures ArtifactBlocks(artifacts + [last]) == ArtifactBlocks(artifacts) + BlockFor(last)
  {
    if artifacts == [] {
      assert artifacts + [last] == [last] && [last][1..] == [];
    } else {
      ArtifactBlocksAppend(artifacts[1..], last);
      assert (artifacts + [last])[1..] == artifacts[1..] + [last];
    }
  }

  method BlockArtifacts(artifacts: seq<Value>) returns (blocks: seq<Block>)
    ensures blocks == ArtifactBlocks(artifacts)
  {
    blocks := [];
    for i := 0 to |artifacts|
      invariant blocks == ArtifactBlocks(artifacts[..i])
    {
      var artifact := artifacts[i];
      ArtifactBlocksAppend(artifacts[..i], artifact);
      NextPrefix(artifacts, i);
      var engine, artifactType := Get(artifact, "engine"), Get(artifact, "artifact_type");
      if Shows(Missing, artifact) {
        blocks := blocks + [Artifact(Missing, engine, artifactType)];
      } else if Shows(Duplicated, artifact) {
        blocks := blocks + [Artifact(Duplicated, engine, artifactType)];
      } else if Shows(NotIsolated, artifact) {
        blocks := blocks + [Artifact(NotIsolated, engine, artifactType)];
      } else if Shows(NotGoverned, artifact) {
        blocks := blocks + [Artifact(NotGoverned, engine, artifactType)];
      } else if Shows(NotVerified, artifact) {
        blocks := blocks + [Artifact(NotVerified, engine, artifactType)];
      }
    }
    assert artifacts[..|artifacts|] == artifacts;
  }

  predicate SomeDefect(artifact: Value) {
    exists d :: Shows(d, artifact)
  }

  function DefectiveAtAll(artifacts: seq<Value>): seq<Value> {
    if artifacts == [] then []
    else (if SomeDefect(artifacts[0]) then [artifacts[0]] else []) + DefectiveAtAll(artifacts[1..])
  }

  /** How many of the newer gate's five lists hold each artifact, added up. */
  function ListedTimes(artifacts: seq<Value>): nat {
    |Defective(Missing, artifacts)| + |Defective(NotVerified, artifacts)| + |Defective(Duplicated, artifacts)|
    + |Defective(NotIsolated, artifacts)| + |Defective(NotGoverned, artifacts)|
  }

  function Times(artifact: Value): nat {
    (if Shows(Missing, artifact) then 1 else 0) + (if Shows(NotVerified, artifact) then 1 else 0)
    + (if Shows(Duplicated, artifact) then 1 else 0) + (if Shows(NotIsolated, artifact) then 1 else 0)
    + if Shows(NotGoverned, artifact) then 1 else 0
  }

  lemma StatusesExclude(artifact: Value)
    ensures !(Shows(Duplicated, artifact) && Shows(NotIsolated, artifact))
    ensures !(Shows(Duplicated, artifact) && Shows(NotGoverned, artifact))
    ensures !(Shows(NotIsolated, artifact) && Shows(NotGoverned, artifact))
    ensures Shows(Missing, artifact) && Shows(NotVerified, artifact) ==>
              !Shows(Duplicated, artifact) && !Shows(NotIsolated, artifact) && !Shows(NotGoverned, artifact)
  {
    var a, b, c := "duplicate_artifact", "worker_isolation_incomplete", "artifact_content_governance_failed";
    var d, e := "missing", "unverified";
    assert |a| == 18 && |b| == 27 && |c| == 34 && |d| == 7 && |e| == 10;
  }

  lemma TimesBounds(artifact: Value)
    ensures if SomeDefect(artifact) then 1 <= Times(artifact) <= 2 else Times(artifact) == 0
    ensures SomeDefect(artifact) <==> KindOf(artifact).Some?
  {
    StatusesExclude(artifact);
  }

  lemma ListedTimesStep(artifacts: seq<Value>)
    requires artifacts != []
    ensures ListedTimes(artifacts) == Times(artifacts[0]) + ListedTimes(artifacts[1..])
  {
  }

  /** One reason for exactly the artifacts in at least one of the five lists, in order; the five counts add up to that
      number at least and to twice that number at most. */
  lemma {:induction false} OneBlockPerDefectiveArtifact(artifacts: seq<Value>)
    ensures |ArtifactBlocks(artifacts)| == |DefectiveAtAll(artifacts)|
    ensures forall i :: 0 <= i < |ArtifactBlocks(artifacts)| ==>
              [ArtifactBlocks(artifacts)[i]] == BlockFor(DefectiveAtAll(artifacts)[i])
    ensures |DefectiveAtAll(artifacts)| <= ListedTimes(artifacts) <= 2 * |DefectiveAtAll(artifacts)|
  {
    if artifacts != [] {
      OneBlockPerDefectiveArtifact(artifacts[1..]);
      TimesBounds(artifacts[0]);
      ListedTimesStep(artifacts);
    }
  }

  lemma {:induction false} NoBlocksExactly(artifacts: seq<Value>)
    ensures ArtifactBlocks(artifacts) == [] <==> forall a, d :: a in artifacts ==> !Shows(d, a)
  {
    if artifacts != [] {
      NoBlocksExactly(artifacts[1..]);
      TimesBounds(artifacts[0]);
      assert artifacts == [artifacts[0]] + artifacts[1..];
    }
  }

  /** An artifact that the older gate has nothing against. */
  predicate InOrder(a: Value) {
    && Get(a, "status") !in {Str("missing"), Str("unverified"), Str("duplicate_artifact"),
                             Str("worker_isolation_incomplete"), Str("artifact_content_governance_failed")}
    && Get(a, "present") != Bool(false)
    && (Get(a, "present") == Bool(true) ==> Get(a, "verified") == Bool(true))
  }

  lemma InOrderExactly(a: Value)
    ensures InOrder(a) <==> forall d :: !Shows(d, a)
  {
    assert Shows(Missing, a) || Shows(NotVerified, a) || Shows(Duplicated, a) || Shows(NotIsolated, a)
           || Shows(NotGoverned, a) || InOrder(a);
  }

  lemma NoBlocksMeansInOrder(manifest: Value)
    ensures ArtifactBlocks(RequiredArtifacts(manifest)) == [] <==>
              forall a :: Carries(manifest, "required_artifacts", a) ==> InOrder(a)
  {
    NoBlocksExactly(RequiredArtifacts(manifest));
    forall a
      ensures a in RequiredArtifacts(manifest) <==> Carries(manifest, "required_artifacts", a)
      ensures InOrder(a) <==> forall d :: !Shows(d, a)
    {
      CarriesExactly(manifest, a);
      InOrderExactly(a);
    }
  }

  /** A reason names the artifact's engine and type, and the first of its defects: missing before duplicated, not
      isolated, not governed and, last, not verified. */
  lemma BlockSays(artifact: Value)
    ensures var status, present := Get(artifact, "status"), Get(artifact, "present");
            var kind :=
              if status == Str("missing") || present == Bool(false) then Missing
              else if status == Str("duplicate_artifact") then Duplicated
              else if status == Str("worker_isolation_incomplete") then NotIsolated
              else if status == Str("artifact_content_governance_failed") then NotGoverned
              else NotVerified;
            BlockFor(artifact) == if InOrder(artifact) then []
                                  else [Artifact(kind, Get(artifact, "engine"), Get(artifact, "artifact_type"))]
  {
    InOrderExactly(artifact);
  }

  // ----- The whole list of reasons -----

  /** The policy under which the endpoint asks the base gate for boundary coverage alone. */
  const BOUNDARY_ONLY: Policy := Policy("", "none", map[AuthorizationBoundaryCoverage := true])

  function BoundaryBlocks(results: seq<Result>): seq<Block> {
    if results == [] then []
    else
      (if Is(BOUNDARY_ONLY, NoBoundary, results[0].finding) then [MissingBoundary(results[0].templateId)] else [])
      + BoundaryBlocks(results[1..])
  }

  /** The severity is upper-cased but, unlike the newer gate's, not stripped. */
  predicate BlockingFinding(x: Finding) {
    x.vulnerable && Upper(x.severity) in STRICT_SEVERITIES
  }

  function FindingBlocks(results: seq<Result>): seq<Block> {
    if results == [] then []
    else
      var x := results[0].finding;
      (if BlockingFinding(x) then [VulnerableFinding(results[0].templateId, Upper(x.severity))] else [])
      + FindingBlocks(results[1..])
  }

  lemma {:induction false} FindingBlocksAppend(results: seq<Result>, last: Result)
    ensures FindingBlocks(results + [last]) == FindingBlocks(results) + FindingBlocks([last])
  {
    if results == [] {
      assert results + [last] == [last];
    } else {
      FindingBlocksAppend(results[1..], last);
      assert (results + [last])[1..] == results[1..] + [last];
    }
  }

  function VulnerableCount(results: seq<Result>): nat {
    if results == [] then 0
    else VulnerableCount(results[..|results| - 1]) + if results[|results| - 1].finding.vulnerable then 1 else 0
  }

  /** The reasons in their order; the base gate reports no more than 25 results without boundary coverage. */
  function AllBlocks(results: seq<Result>, manifest: Value): seq<Block> {
    Take(BoundaryBlocks(results), LISTED_LIMIT) + ArtifactBlocks(RequiredArtifacts(manifest)) + FindingBlocks(results)
  }

  datatype LegacyDecision = LegacyDecision(gatePassed: bool, blocks: seq<Block>, vulnerableCount: nat)

  method LegacyCiGateDecision(results: seq<Result>, manifest: Value) returns (decision: LegacyDecision)
    ensures decision.blocks == AllBlocks(results, manifest)
    ensures decision.gatePassed <==> decision.blocks == []
    ensures decision.vulnerableCount == VulnerableCount(results)
  {
    var blocks := Take(BoundaryBlocks(results), LISTED_LIMIT);
    var found := BlockArtifacts(RequiredArtifacts(manifest));
    blocks := blocks + found;
    ghost var before := blocks;
    for i := 0 to |results|
      invariant blocks == before + FindingBlocks(results[..i])
    {
      var result := results[i];
      FindingBlocksAppend(results[..i], result);
      NextPrefix(results, i);
      if !result.finding.vulnerable { continue; }
      if Upper(result.finding.severity) in STRICT_SEVERITIES {
        blocks := blocks + [VulnerableFinding(result.templateId, Upper(result.finding.severity))];
      }
    }
    assert results[..|results|] == results;
    decision := LegacyDecision(blocks == [], blocks, VulnerableCount(results));
  }

  lemma {:induction false} ResultBlocksExactly(results: seq<Result>)
    ensures BoundaryBlocks(results) == [] <==>
              forall r :: r in results ==> r.finding.replay ==> r.finding.boundaryComplete
    ensures FindingBlocks(results) == [] <==> forall r :: r in results ==> !BlockingFinding(r.finding)
  {
    if results != [] {
      ResultBlocksExactly(results[1..]);
      assert results == [results[0]] + results[1..];
    }
  }

  /** What a pass of the older gate means; run status, authentication and tickets play no part in it. */
  lemma LegacyPassesExactly(results: seq<Result>, manifest: Value)
    ensures AllBlocks(results, manifest) == [] <==>
            && (forall r :: r in results ==>
              && (r.finding.replay ==> r.finding.boundaryComplete)
              && (r.finding.vulnerable ==> Upper(r.finding.severity) !in {"CRITICAL", "HIGH"}))
            && (forall a :: Carries(manifest, "required_artifacts", a) ==> InOrder(a))
  {
    NoBlocksMeansInOrder(manifest);
    ResultBlocksExactly(results);
  }

  lemma {:induction false} BoundaryPicks(results: seq<Result>, p: Result -> bool, g: Result -> Block)
    returns (at: seq<nat>)
    requires forall r :: p(r) <==> Is(BOUNDARY_ONLY, NoBoundary, r.finding)
    requires forall r :: g(r) == MissingBoundary(r.templateId)
    ensures Picks(results, BoundaryBlocks(results), p, g, at)
  {
    at := [];
    if results != [] {
      var rest := BoundaryPicks(results[1..], p, g);
      at := PicksNext(results, BoundaryBlocks(results[1..]), BoundaryBlocks(results), p, g, rest);
    }
  }

  lemma {:induction false} FindingPicks(results: seq<Result>, p: Result -> bool, g: Result -> Block)
    returns (at: seq<nat>)
    requires forall r :: p(r) <==> BlockingFinding(r.finding)
    requires forall r :: g(r) == VulnerableFinding(r.templateId, Upper(r.finding.severity))
    ensures Picks(results, FindingBlocks(results), p, g, at)
  {
    at := [];
    if results != [] {
      var rest := FindingPicks(results[1..], p, g);
      at := PicksNext(results, FindingBlocks(results[1..]), FindingBlocks(results), p, g, rest);
    }
  }

  /** The reasons, in order: the first 25 replays without boundary coverage, the artifacts, and every vulnerable result
      of a blocking severity. */
  lemma ReasonsInOrder(results: seq<Result>, manifest: Value)
    ensures var boundary := BoundaryBlocks(results);
            AllBlocks(results, manifest)
            == boundary[..if |boundary| <= 25 then |boundary| else 25]
               + ArtifactBlocks(RequiredArtifacts(manifest)) + FindingBlocks(results)
    ensures Picked(results, BoundaryBlocks(results), (r: Result) => r.finding.replay && !r.finding.boundaryComplete,
                   (r: Result) => MissingBoundary(r.templateId))
    ensures Picked(results, FindingBlocks(results),
                   (r: Result) => r.finding.vulnerable && Upper(r.finding.severity) in {"CRITICAL", "HIGH"},
                   (r: Result) => VulnerableFinding(r.templateId, Upper(r.finding.severity)))
  {
    BoundaryPicked(results);
    FindingPicked(results);
  }

  lemma BoundaryPicked(results: seq<Result>)
    ensures Picked(results, BoundaryBlocks(results), (r: Result) => r.finding.replay && !r.finding.boundaryComplete,
                   (r: Result) => MissingBoundary(r.templateId))
  {
    var p := (r: Result) => r.finding.replay && !r.finding.boundaryComplete;
    var g := (r: Result) => MissingBoundary(r.templateId);
    var at := BoundaryPicks(results, p, g);
    PicksAlike(results, BoundaryBlocks(results), p, p, g, g, at);
  }

  lemma FindingPicked(results: seq<Result>)
    ensures Picked(results, FindingBlocks(results),
                   (r: Result) => r.finding.vulnerable && Upper(r.finding.severity) in {"CRITICAL", "HIGH"},
                   (r: Result) => VulnerableFinding(r.templateId, Upper(r.finding.severity)))
  {
    var p := (r: Result) => r.finding.vulnerable && Upper(r.finding.severity) in {"CRITICAL", "HIGH"};
    var g := (r: Result) => VulnerableFinding(r.templateId, Upper(r.finding.severity));
    var at := FindingPicks(results, p, g);
    PicksAlike(results, FindingBlocks(results), p, p, g, g, at);
  }

  lemma {:induction false} VulnerableCountExactly(results: seq<Result>)
    ensures VulnerableCount(results) == HowMany(results, (r: Result) => r.finding.vulnerable)
  {
    if results != [] {
      HowManyNext(results, (r: Result) => r.finding.vulnerable);
      VulnerableCountExactly(results[..|results| - 1]);
    }
  }
}
