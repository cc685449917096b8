/** Selection coverage of the trusted engines: which coverage targets fall short, and of what. */
module CoverageGaps {
  import opened Strings
  import opened Sorting
  import opened Json
  import opened Lists

  const AUTHORIZATION := "authorization"
  const ACTIVE_TARGETS: set<string> := {"business_logic", "llm_api"}
  const TARGETS: set<string> := {AUTHORIZATION} + ACTIVE_TARGETS
  const REQUIRED_FIELDS := ["status", "signals"]
  const AUTHORIZATION_FIELDS := ["identity_context", "readiness"]
  const IDENTITY_FIELDS := [
    "role_count", "multi_identity_ready", "privileged_role_present", "low_privilege_role_present",
    "privilege_boundary_pair_count"]
  const READINESS_FIELDS := [
    "auth_context_ready", "private_identifier_context_ready", "role_context_ready", "bola_replay_testable",
    "bfla_replay_testable"]
  const REPLAY_FIELDS := ["bola_replay_testable", "bfla_replay_testable"]

  datatype Shortfall = NoDetails | NoDetail | MissingFields | NotReady

  datatype Gap = Gap(engine: string, artifactType: string, target: Option<string>, reason: Shortfall,
                     missing: seq<string>)

  predicate NonEmptyDict(v: Value) {
    v.Obj? && v.fields != map[]
  }

  predicate Requested(detail: Value) {
    IsTrue(Get(detail, "template_requested"))
  }

  // ----- Missing fields -----

  /** The listed fields that a dict does not have, each with a prefix. */
  function Absent(v: Value, prefix: string, fields: seq<string>): seq<string> {
    if fields == [] then []
    else (if Has(v, fields[0]) then [] else [prefix + fields[0]]) + Absent(v, prefix, fields[1..])
  }

  function NotDicts(v: Value, fields: seq<string>): seq<string> {
    if fields == [] then []
    else (if NonEmptyDict(Get(v, fields[0])) then [] else [fields[0]]) + NotDicts(v, fields[1..])
  }

  function MissingParts(target: string, detail: Value): seq<string> {
    Absent(detail, "", REQUIRED_FIELDS)
    + (if Has(detail, "signals") && !Get(detail, "signals").Arr? then ["signals"] else [])
    + (if target in ACTIVE_TARGETS && Requested(detail) && !NonEmptyDict(Get(detail, "active_test_families"))
       then ["active_test_families"] else [])
    + (if target == AUTHORIZATION && Requested(detail) then AuthorizationParts(detail) else [])
  }

  function AuthorizationParts(detail: Value): seq<string> {
    var identity, readiness := Get(detail, "identity_context"), Get(detail, "readiness");
    NotDicts(detail, AUTHORIZATION_FIELDS)
    + (if identity.Obj? then Absent(identity, "identity_context.", IDENTITY_FIELDS) else [])
    + (if readiness.Obj? then Absent(readiness, "readiness.", READINESS_FIELDS) else [])
  }

  function TargetMissingFields(target: string, detail: Value): seq<string> {
    SortUnique(MissingParts(target, detail))
  }

  ghost predicate LacksPart(v: Value, prefix: string, fields: seq<string>, f: string) {
    v.Obj? && exists g :: g in fields && f == prefix + g && !Has(v, g)
  }

  /** The detail of `target` falls short in the field named `f`. */
  ghost predicate Lacks(target: string, detail: Value, f: string) {
    || (f in {"status", "signals"} && !Has(detail, f))
    || (f == "signals" && Has(detail, "signals") && !Get(detail, "signals").Arr?)
    || (f == "active_test_families" && target in {"business_logic", "llm_api"}
        && Get(detail, "template_requested") == Bool(true) && !FilledDict(Get(detail, "active_test_families")))
    || (target == "authorization" && Get(detail, "template_requested") == Bool(true) && AuthorizationLacks(detail, f))
  }

  predicate FilledDict(v: Value) {
    v.Obj? && exists k :: k in v.fields
  }

  ghost predicate AuthorizationLacks(detail: Value, f: string) {
    || (f in {"identity_context", "readiness"} && !FilledDict(Get(detail, f)))
    || LacksPart(Get(detail, "identity_context"), "identity_context.",
                 ["role_count", "multi_identity_ready", "privileged_role_present", "low_privilege_role_present",
                  "privilege_boundary_pair_count"], f)
    || LacksPart(Get(detail, "readiness"), "readiness.",
                 ["auth_context_ready", "private_identifier_context_ready", "role_context_ready",
                  "bola_replay_testable", "bfla_replay_testable"], f)
  }

  lemma FilledExactly(v: Value)
    ensures FilledDict(v) <==> NonEmptyDict(v)
  {
    if v.Obj? && v.fields != map[] { assert exists k :: k in v.fields; }
  }

  lemma {:induction false} AbsentExactly(v: Value, prefix: string, fields: seq<string>, f: string)
    ensures f in Absent(v, prefix, fields) <==> exists g :: g in fields && f == prefix + g && !Has(v, g)
  {
    if fields != [] {
      AbsentExactly(v, prefix, fields[1..], f);
      assert fields == [fields[0]] + fields[1..];
    }
  }

  lemma {:induction false} NotDictsExactly(v: Value, fields: seq<string>, f: string)
    ensures f in NotDicts(v, fields) <==> f in fields && !NonEmptyDict(Get(v, f))
  {
    if fields != [] {
      NotDictsExactly(v, fields[1..], f);
      assert fields == [fields[0]] + fields[1..];
    }
  }

  lemma AuthorizationPartsExactly(detail: Value, f: string)
    ensures f in AuthorizationParts(detail) <==> AuthorizationLacks(detail, f)
  {
    NotDictsExactly(detail, AUTHORIZATION_FIELDS, f);
    FilledExactly(Get(detail, f));
    AbsentExactly(Get(detail, "identity_context"), "identity_context.", IDENTITY_FIELDS, f);
    AbsentExactly(Get(detail, "readiness"), "readiness.", READINESS_FIELDS, f);
  }

  lemma RequiredPartsExactly(detail: Value, f: string)
    ensures f in Absent(detail, "", REQUIRED_FIELDS) <==> f in REQUIRED_FIELDS && !Has(detail, f)
  {
    AbsentExactly(detail, "", REQUIRED_FIELDS, f);
    assert forall g: string :: "" + g == g;
  }

  /** The missing-field list is strictly sorted and names exactly the failing fields. */
  lemma MissingFieldsExactly(target: string, detail: Value)
    ensures StrictlySorted(TargetMissingFields(target, detail))
    ensures forall f :: f in TargetMissingFields(target, detail) <==> Lacks(target, detail, f)
  {
    SortUniqueSorts(MissingParts(target, detail));
    forall f
      ensures f in MissingParts(target, detail) <==> Lacks(target, detail, f)
    {
      RequiredPartsExactly(detail, f);
      FilledExactly(Get(detail, "active_test_families"));
      AuthorizationPartsExactly(detail, f);
    }
  }

  // ----- Readiness -----

  function Words(v: Value): string {
    if v.Str? then Lower(Strip(v.s)) else ""
  }

  predicate ClaimsAvailable(detail: Value) {
    Words(Get(detail, "status")) in {"available", "ready"} || IsTrue(Get(detail, "template_covered"))
  }

  predicate SomeReplayReady(readiness: Value) {
    exists f :: f in REPLAY_FIELDS && IsTrue(Get(readiness, f))
  }

  predicate SomeFamilyReady(families: Value)
    requires families.Obj?
  {
    exists name :: name in families.fields && families.fields[name].Obj? && IsTrue(Get(families.fields[name], "ready"))
  }

  function AuthorizationNotReady(detail: Value): seq<string> {
    var readiness := Get(detail, "readiness");
    if !readiness.Obj? || SomeReplayReady(readiness) then []
    else SortUnique(["readiness.bola_replay_testable", "readiness.bfla_replay_testable"])
  }

  function TargetNotReadyFields(target: string, detail: Value): seq<string> {
    if !Requested(detail) then []
    else if !ClaimsAvailable(detail) then []
    else if target == AUTHORIZATION then AuthorizationNotReady(detail)
    else if target !in ACTIVE_TARGETS then []
    else
      var families := Get(detail, "active_test_families");
      if !families.Obj? || SomeFamilyReady(families) then [] else ["active_test_families.ready"]
  }

  /** A requested target that is claimed to be available has something that can run. */
  predicate Ready(target: string, detail: Value) {
    var status, readiness, families := Get(detail, "status"), Get(detail, "readiness"),
                                       Get(detail, "active_test_families");
    && Get(detail, "template_requested") == Bool(true)
    && ((status.Str? && Lower(Strip(status.s)) in {"available", "ready"})
        || Get(detail, "template_covered") == Bool(true))
    ==>
      && (target == "authorization" && readiness.Obj? ==>
            Get(readiness, "bola_replay_testable") == Bool(true)
            || Get(readiness, "bfla_replay_testable") == Bool(true))
      && (target in {"business_logic", "llm_api"} && families.Obj? ==>
            exists name :: name in families.fields && Get(families.fields[name], "ready") == Bool(true))
  }

  lemma ReplaysNotReady(detail: Value)
    ensures var readiness, fields := Get(detail, "readiness"), AuthorizationNotReady(detail);
            && (fields == [] <==>
                  readiness.Obj? ==> Get(readiness, "bola_replay_testable") == Bool(true)
                                     || Get(readiness, "bfla_replay_testable") == Bool(true))
            && (fields != [] ==>
                  StrictlySorted(fields)
                  && forall f :: f in fields <==>
                                   f in {"readiness.bola_replay_testable", "readiness.bfla_replay_testable"})
  {
    var both := ["readiness.bola_replay_testable", "readiness.bfla_replay_testable"];
    SortUniqueSorts(both);
    assert both[0] in SortUnique(both);
    var readiness := Get(detail, "readiness");
    assert REPLAY_FIELDS[0] == "bola_replay_testable" && REPLAY_FIELDS[1] == "bfla_replay_testable";
    assert SomeReplayReady(readiness) <==>
      Get(readiness, "bola_replay_testable") == Bool(true) || Get(readiness, "bfla_replay_testable") == Bool(true);
  }

  lemma FamiliesExactly(families: Value)
    requires families.Obj?
    ensures SomeFamilyReady(families) <==>
              exists name :: name in families.fields && Get(families.fields[name], "ready") == Bool(true)
  {
  }

  lemma NotReadyExactly(target: string, detail: Value)
    ensures TargetNotReadyFields(target, detail) == [] <==> Ready(target, detail)
  {
    ReplaysNotReady(detail);
    ClaimsExactly(detail);
    assert AUTHORIZATION !in ACTIVE_TARGETS;
    var families := Get(detail, "active_test_families");
    if families.Obj? { FamiliesExactly(families); }
  }

  /** Which fields are reported of a target that is not ready. */
  lemma NotReadyFieldsExactly(target: string, detail: Value)
    ensures var fields := TargetNotReadyFields(target, detail);
            fields != [] ==>
              StrictlySorted(fields)
              && forall f :: f in fields <==>
                               if target == "authorization" then
                                 f in {"readiness.bola_replay_testable", "readiness.bfla_replay_testable"}
                               else f == "active_test_families.ready"
  {
    ReplaysNotReady(detail);
  }

  lemma ClaimsExactly(detail: Value)
    ensures var status := Get(detail, "status");
            ClaimsAvailable(detail) <==>
              (status.Str? && Lower(Strip(status.s)) in {"available", "ready"})
              || Get(detail, "template_covered") == Bool(true)
  {
    assert |"available"| == 9 && |"ready"| == 5;
  }

  // ----- Gaps -----

  predicate Trusted(detail: Value) {
    detail.Obj? && Get(detail, "status") == Str("trusted")
  }

  /** The known targets a list names, in order and with repetitions.  Only a text prints as a target's name. */
  function KnownTargets(items: seq<Value>): (names: seq<string>)
    ensures forall name :: name in names <==> Str(name) in items && name in TARGETS
  {
    if items == [] then []
    else
      assert items == [items[0]] + items[1..];
      (if items[0].Str? && items[0].s in TARGETS then [items[0].s] else []) + KnownTargets(items[1..])
  }

  function TargetsOf(detail: Value): seq<string> {
    var targets := Get(detail, "coverage_targets");
    if targets.Arr? then KnownTargets(targets.items) else []
  }

  /** `show` prints and redacts a field of the detail. */
  function MakeGap(show: Value -> string, detail: Value, target: Option<string>, reason: Shortfall,
                   missing: seq<string>): Gap
  {
    Gap(show(Get(detail, "engine")), show(Get(detail, "artifact_type")), target, reason, missing)
  }

  function TargetGap(show: Value -> string, detail: Value, details: Value, target: string): seq<Gap> {
    var entry := Get(details, target);
    if !entry.Obj? then [MakeGap(show, detail, Some(target), NoDetail, ["coverage_target_details"])]
    else
      var missing, notReady := TargetMissingFields(target, entry), TargetNotReadyFields(target, entry);
      if missing != [] then [MakeGap(show, detail, Some(target), MissingFields, missing)]
      else if notReady != [] then [MakeGap(show, detail, Some(target), NotReady, notReady)]
      else []
  }

  function TargetGaps(show: Value -> string, detail: Value, details: Value, targets: seq<string>): seq<Gap> {
    if targets == [] then []
    else TargetGap(show, detail, details, targets[0]) + TargetGaps(show, detail, details, targets[1..])
  }

  function DetailGaps(show: Value -> string, detail: Value): seq<Gap> {
    var targets, details := TargetsOf(detail), Get(detail, "coverage_target_details");
    if !Trusted(detail) || targets == [] then []
    else if !details.Obj? then [MakeGap(show, detail, None, NoDetails, ["coverage_target_details"])]
    else TargetGaps(show, detail, details, targets)
  }

  function GapLists(show: Value -> string, details: seq<Value>): seq<seq<Gap>> {
    seq(|details|, i requires 0 <= i < |details| => DetailGaps(show, details[i]))
  }

  function AllGaps(show: Value -> string, details: seq<Value>): seq<Gap> {
    Flatten(GapLists(show, details))
  }

  lemma GapListsNext(show: Value -> string, details: seq<Value>, i: nat)
    requires i < |details|
    ensures GapLists(show, details[..i + 1]) == GapLists(show, details[..i]) + [DetailGaps(show, details[i])]
  {
    var now, before := GapLists(show, details[..i + 1]), GapLists(show, details[..i]);
    assert forall j :: 0 <= j < i ==> now[j] == before[j];
    assert now[i] == DetailGaps(show, details[i]);
  }

  lemma AllGapsNext(show: Value -> string, details: seq<Value>, i: nat)
    requires i < |details|
    ensures AllGaps(show, details[..i + 1]) == AllGaps(show, details[..i]) + DetailGaps(show, details[i])
  {
    GapListsNext(show, details, i);
    FlattenAppend(GapLists(show, details[..i]), DetailGaps(show, details[i]));
  }

  lemma {:induction false} TargetGapsAppend(show: Value -> string, detail: Value, details: Value, targets: seq<string>,
                                            last: string)
    ensures TargetGaps(show, detail, details, targets + [last])
         == TargetGaps(show, detail, details, targets) + TargetGap(show, detail, details, last)
  {
    if targets == [] {
      assert targets + [last] == [last] && [last][1..] == [];
    } else {
      TargetGapsAppend(show, detail, details, targets[1..], last);
      assert (targets + [last])[1..] == targets[1..] + [last];
    }
  }

  /** The inner loop, over the known targets of one trusted detail. */
  method CollectTargetGaps(show: Value -> string, detail: Value, details: Value, targets: seq<string>)
    returns (gaps: seq<Gap>)
    ensures gaps == TargetGaps(show, detail, details, targets)
  {
    gaps := [];
    for j := 0 to |targets|
      invariant gaps == TargetGaps(show, detail, details, targets[..j])
    {
      var target := targets[j];
      TargetGapsAppend(show, detail, details, targets[..j], target);
      assert targets[..j + 1] == targets[..j] + [target];
      var entry := Get(details, target);
      if !entry.Obj? {
        gaps := gaps + [MakeGap(show, detail, Some(target), NoDetail, ["coverage_target_details"])];
        continue;
      }
      var missing := TargetMissingFields(target, entry);
      if missing != [] {
        gaps := gaps + [MakeGap(show, detail, Some(target), MissingFields, missing)];
        continue;
      }
      var notReady := TargetNotReadyFields(target, entry);
      if notReady != [] { gaps := gaps + [MakeGap(show, detail, Some(target), NotReady, notReady)]; }
    }
    assert targets[..|targets|] == targets;
  }

  /** The outer loop, over the selection details of the manifest. */
  method CollectGaps(show: Value -> string, selectionDetails: seq<Value>) returns (gaps: seq<Gap>)
    ensures gaps == AllGaps(show, selectionDetails)
  {
    gaps := [];
    for i := 0 to |selectionDetails|
      invariant gaps == AllGaps(show, selectionDetails[..i])
    {
      var detail := selectionDetails[i];
      AllGapsNext(show, selectionDetails, i);
      if !Trusted(detail) { continue; }
      var targets := TargetsOf(detail);
      if targets == [] { continue; }
      var details := Get(detail, "coverage_target_details");
      if !details.Obj? {
        gaps := gaps + [MakeGap(show, detail, None, NoDetails, ["coverage_target_details"])];
        continue;
      }
      var found := CollectTargetGaps(show, detail, details, targets);
      gaps := gaps + found;
    }
    assert selectionDetails[..|selectionDetails|] == selectionDetails;
  }

  // ----- What the gaps say -----

  /** A known target of a trusted detail is covered: its entry is a
      dict with every field, ready if claimed available. */
  ghost predicate Covered(details: Value, target: string) {
    var entry := Get(details, target);
    entry.Obj? && (forall f :: !Lacks(target, entry, f)) && Ready(target, entry)
  }

  lemma TargetGapExactly(show: Value -> string, detail: Value, details: Value, target: string)
    ensures |TargetGap(show, detail, details, target)| == if Covered(details, target) then 0 else 1
    ensures forall g :: g in TargetGap(show, detail, details, target) ==> g.target == Some(target)
  {
    var entry := Get(details, target);
    MissingFieldsExactly(target, entry);
    NotReadyExactly(target, entry);
    var missing := TargetMissingFields(target, entry);
    if missing != [] { assert missing[0] in missing; }
  }

  /** The gap of an uncovered target names the engine, the artifact and the target, says in which way the target falls
      short, and lists what is missing. */
  lemma TargetGapSays(show: Value -> string, detail: Value, details: Value, target: string, g: Gap)
    requires target in {"authorization", "business_logic", "llm_api"} && g in TargetGap(show, detail, details, target)
    ensures g.engine == show(Get(detail, "engine")) && g.artifactType == show(Get(detail, "artifact_type"))
    ensures g.target == Some(target) && StrictlySorted(g.missing)
    ensures var entry := Get(details, target);
            && (g.reason == NoDetail <==> !entry.Obj?)
            && (g.reason == MissingFields <==> entry.Obj? && exists f :: Lacks(target, entry, f))
            && (g.reason == NotReady <==> entry.Obj? && (forall f :: !Lacks(target, entry, f)) && !Ready(target, entry))
            && (g.reason == NoDetail ==> g.missing == ["coverage_target_details"])
            && (g.reason == MissingFields ==> forall f :: f in g.missing <==> Lacks(target, entry, f))
            && (g.reason == NotReady ==>
                  forall f :: f in g.missing <==>
                    if target == "authorization" then
                      f in {"readiness.bola_replay_testable", "readiness.bfla_replay_testable"}
                    else f == "active_test_families.ready")
  {
    var entry := Get(details, target);
    MissingFieldsExactly(target, entry);
    NotReadyExactly(target, entry);
    NotReadyFieldsExactly(target, entry);
    var missing := TargetMissingFields(target, entry);
    if missing != [] { assert missing[0] in missing; }
  }

  /** A detail without a dict of entries has one gap, of no particular target. */
  lemma NoDetailsGap(show: Value -> string, detail: Value)
    requires Get(detail, "status") == Str("trusted") && TargetsOf(detail) != []
    requires !Get(detail, "coverage_target_details").Obj?
    ensures DetailGaps(show, detail)
         == [Gap(show(Get(detail, "engine")), show(Get(detail, "artifact_type")), None, NoDetails,
                 ["coverage_target_details"])]
  {
  }

  lemma {:induction false} KnownTargetsPick(items: seq<Value>, p: Value -> bool, g: Value -> string)
    returns (at: seq<nat>)
    requires forall v :: p(v) <==> v.Str? && v.s in TARGETS
    requires forall v: Value :: v.Str? ==> g(v) == v.s
    ensures Picks(items, KnownTargets(items), p, g, at)
  {
    at := [];
    if items != [] {
      var rest := KnownTargetsPick(items[1..], p, g);
      at := PicksNext(items, KnownTargets(items[1..]), KnownTargets(items), p, g, rest);
    }
  }

  /** The targets of a detail are the known ones that its list names, in order and with repetitions. */
  lemma TargetsInOrder(detail: Value)
    requires Get(detail, "coverage_targets").Arr?
    ensures Picked(Get(detail, "coverage_targets").items, TargetsOf(detail),
                   (v: Value) => v in {Str("authorization"), Str("business_logic"), Str("llm_api")},
                   (v: Value) => if v.Str? then v.s else "")
  {
    var items := Get(detail, "coverage_targets").items;
    var known := (v: Value) => v in {Str("authorization"), Str("business_logic"), Str("llm_api")};
    var name := (v: Value) => if v.Str? then v.s else "";
    var at := KnownTargetsPick(items, known, name);
    PicksAlike(items, KnownTargets(items), known, known, name, name, at);
  }

  ghost function Uncovered(details: Value, targets: seq<string>): seq<string> {
    if targets == [] then []
    else (if Covered(details, targets[0]) then [] else [targets[0]]) + Uncovered(details, targets[1..])
  }

  function TargetsNamed(gaps: seq<Gap>): seq<Option<string>> {
    seq(|gaps|, i requires 0 <= i < |gaps| => gaps[i].target)
  }

  function Wrapped(names: seq<string>): seq<Option<string>> {
    seq(|names|, i requires 0 <= i < |names| => Some(names[i]))
  }

  lemma NamedConcat(xs: seq<Gap>, ys: seq<Gap>)
    ensures TargetsNamed(xs + ys) == TargetsNamed(xs) + TargetsNamed(ys)
  {
  }

  lemma WrappedConcat(xs: seq<string>, ys: seq<string>)
    ensures Wrapped(xs + ys) == Wrapped(xs) + Wrapped(ys)
  {
  }

  lemma TargetNamed(show: Value -> string, detail: Value, details: Value, target: string)
    ensures TargetsNamed(TargetGap(show, detail, details, target))
              == Wrapped(if Covered(details, target) then [] else [target])
  {
    var gaps := TargetGap(show, detail, details, target);
    TargetGapExactly(show, detail, details, target);
    assert forall i :: 0 <= i < |gaps| ==> gaps[i] in gaps;
  }

  /** The gaps of a detail name its uncovered targets one by one, in order and with repetitions. */
  lemma {:induction false} GapsInOrder(show: Value -> string, detail: Value, details: Value, targets: seq<string>)
    ensures TargetsNamed(TargetGaps(show, detail, details, targets)) == Wrapped(Uncovered(details, targets))
  {
    if targets != [] {
      TargetNamed(show, detail, details, targets[0]);
      GapsInOrder(show, detail, details, targets[1..]);
      NamedConcat(TargetGap(show, detail, details, targets[0]), TargetGaps(show, detail, details, targets[1..]));
      WrappedConcat(if Covered(details, targets[0]) then [] else [targets[0]], Uncovered(details, targets[1..]));
    }
  }

  /** A detail that raises no gap. */
  ghost predicate Accounted(detail: Value) {
    var targets := Get(detail, "coverage_targets");
    Get(detail, "status") == Str("trusted") && targets.Arr? ==>
      forall target :: target in {"authorization", "business_logic", "llm_api"} && Str(target) in targets.items ==>
        Get(detail, "coverage_target_details").Obj? && Covered(Get(detail, "coverage_target_details"), target)
  }

  lemma {:induction false} UncoveredEmpty(details: Value, targets: seq<string>)
    ensures Uncovered(details, targets) == [] <==> forall t :: t in targets ==> Covered(details, t)
  {
    if targets != [] {
      UncoveredEmpty(details, targets[1..]);
      assert targets == [targets[0]] + targets[1..];
    }
  }

  lemma DetailGapsEmpty(show: Value -> string, detail: Value)
    ensures DetailGaps(show, detail) == [] <==> Accounted(detail)
  {
    var targets, details := TargetsOf(detail), Get(detail, "coverage_target_details");
    UncoveredEmpty(details, targets);
    GapsInOrder(show, detail, details, targets);
    if targets != [] { assert targets[0] in targets; }
    assert |TargetsNamed(TargetGaps(show, detail, details, targets))| == |Wrapped(Uncovered(details, targets))|;
  }

  /** No gap is collected exactly when every known target of every trusted detail is covered. */
  lemma NoGapsExactly(show: Value -> string, details: seq<Value>)
    ensures AllGaps(show, details) == [] <==> forall d :: d in details ==> Accounted(d)
  {
    FlattenEmpty(GapLists(show, details));
    forall i | 0 <= i < |details|
      ensures GapLists(show, details)[i] == [] <==> Accounted(details[i])
    {
      DetailGapsEmpty(show, details[i]);
    }
  }
}
