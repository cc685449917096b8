/** What the two overlays record in a decision: how many items of each kind there are, and the first 25 of them. */
module OverlayRecords {
  import opened Strings
  import opened Json
  import opened Lists
  import opened GatePolicy
  import opened QualityGate
  import opened ReleaseOverlays
  import Coverage = CoverageGaps

  ghost predicate RecordsThese<T>(e: Entry<T>, all: seq<T>, p: T -> bool, found: seq<T>) {
    && Picked(all, found, p, (x: T) => x)
    && e.count == |found| && e.shown == found[..if |found| <= 25 then |found| else 25]
  }

  /** The entry counts the items that satisfy `p` and shows the first 25 of them, in order. */
  ghost predicate Records<T(!new)>(e: Entry<T>, all: seq<T>, p: T -> bool) {
    exists found :: RecordsThese(e, all, p, found)
  }

  lemma EntryRecords<T(!new)>(all: seq<T>, found: seq<T>, p: T -> bool, q: T -> bool, at: seq<nat>)
    requires Picks(all, found, p, (x: T) => x, at)
    requires forall i :: 0 <= i < |all| ==> p(all[i]) == q(all[i])
    ensures Records(EntryFor(found), all, q)
  {
    PicksAlike(all, found, p, q, (x: T) => x, (x: T) => x, at);
    assert RecordsThese(EntryFor(found), all, q, found);
  }

  // ----- Artifacts -----

  function Items(v: Value): seq<Value> {
    if v.Arr? then v.items else []
  }

  lemma DefectiveFirst(items: seq<Value>, d: Defect)
    requires items != []
    ensures Defective(d, OnlyDicts(items))
         == (if items[0].Obj? && Shows(d, items[0]) then [items[0]] else []) + Defective(d, OnlyDicts(items[1..]))
  {
    var dicts, rest := OnlyDicts(items), OnlyDicts(items[1..]);
    if items[0].Obj? {
      assert dicts == [items[0]] + rest;
      assert dicts[0] == items[0] && dicts[1..] == rest;
    } else {
      assert dicts == rest;
    }
  }

  lemma {:induction false} DefectivePicks(items: seq<Value>, d: Defect, p: Value -> bool) returns (at: seq<nat>)
    requires forall a :: p(a) <==> a.Obj? && Shows(d, a)
    ensures Picks(items, Defective(d, OnlyDicts(items)), p, (a: Value) => a, at)
  {
    at := [];
    if items != [] {
      var rest := DefectivePicks(items[1..], d, p);
      var kept := Defective(d, OnlyDicts(items[1..]));
      DefectiveFirst(items, d);
      at := PicksNext(items, kept, Defective(d, OnlyDicts(items)), p, (a: Value) => a, rest);
    }
  }

  lemma DefectRecorded(items: seq<Value>, d: Defect, q: Value -> bool)
    requires forall a :: q(a) <==> a.Obj? && Shows(d, a)
    ensures Records(EntryFor(Defective(d, OnlyDicts(items))), items, q)
  {
    var at := DefectivePicks(items, d, q);
    EntryRecords(items, Defective(d, OnlyDicts(items)), q, q, at);
  }

  function HasStatus(status: string): Value -> bool {
    (a: Value) => a.Obj? && Get(a, "status") == Str(status)
  }

  function IsMissing(): Value -> bool {
    (a: Value) => a.Obj? && (Get(a, "status") == Str("missing") || Get(a, "present") == Bool(false))
  }

  function IsUnverified(): Value -> bool {
    (a: Value) => a.Obj? && (Get(a, "status") == Str("unverified")
                             || (Get(a, "present") == Bool(true) && Get(a, "verified") != Bool(true)))
  }

  /** The five kinds of defects among the artifacts of a list. */
  ghost predicate AllRecorded(e: DefectEntries, items: seq<Value>) {
    && Records(e.missing, items, IsMissing()) && Records(e.notVerified, items, IsUnverified())
    && Records(e.duplicated, items, HasStatus("duplicate_artifact"))
    && Records(e.notIsolated, items, HasStatus("worker_isolation_incomplete"))
    && Records(e.notGoverned, items, HasStatus("artifact_content_governance_failed"))
  }

  lemma DefectsRecorded(items: seq<Value>)
    ensures AllRecorded(DefectsOf(OnlyDicts(items)), items)
  {
    DefectRecorded(items, Missing, IsMissing());
    DefectRecorded(items, NotVerified, IsUnverified());
    DefectRecorded(items, Duplicated, HasStatus("duplicate_artifact"));
    DefectRecorded(items, NotIsolated, HasStatus("worker_isolation_incomplete"));
    DefectRecorded(items, NotGoverned, HasStatus("artifact_content_governance_failed"));
  }

  lemma {:induction false} StatusPicks(items: seq<Value>, status: string) returns (at: seq<nat>)
    ensures Picks(items, WithStatus(status, items), HasStatus(status), (a: Value) => a, at)
  {
    at := [];
    if items != [] {
      var rest := StatusPicks(items[1..], status);
      at := PicksNext(items, WithStatus(status, items[1..]), WithStatus(status, items),
                      HasStatus(status), (a: Value) => a, rest);
    }
  }

  lemma StatusRecorded(items: seq<Value>, status: string)
    ensures Records(EntryFor(WithStatus(status, items)), items, HasStatus(status))
  {
    var at := StatusPicks(items, status);
    EntryRecords(items, WithStatus(status, items), HasStatus(status), HasStatus(status), at);
  }

  /** After the artifact overlay the decision has, whatever its verdict, every defect of the manifest's artifacts and of
      its selection details on record, and the policy as it was asked for. */
  lemma ArtifactsRecorded(s: Snapshot, show: Value -> string, manifest: Value, required: bool)
    ensures var t := AfterArtifacts(s, show, manifest, required);
            var accountability := Get(manifest, "engine_accountability");
            && AllRecorded(t.required, Items(Get(accountability, "required_artifacts")))
            && AllRecorded(t.continuous, Items(Get(accountability, "continuous_artifacts")))
            && t.policy == s.policy[EngineArtifactAccountability := required] && t.ticketing == s.ticketing
    ensures SelectionRecorded(AfterArtifacts(s, show, manifest, required).selection, show, manifest)
  {
    var accountability := Get(manifest, "engine_accountability");
    DefectsRecorded(Items(Get(accountability, "required_artifacts")));
    DefectsRecorded(Items(Get(accountability, "continuous_artifacts")));
    SelectionIsRecorded(show, manifest);
  }

  ghost predicate SelectionRecorded(e: SelectionEntries, show: Value -> string, manifest: Value) {
    var details := Items(SelectionEntry(manifest, "engine_details"));
    && Records(e.missing, details, HasStatus("missing_selection_accountability"))
    && Records(e.unverified, details, HasStatus("unverified_artifact"))
    && Records(e.gaps, Coverage.AllGaps(show, details), _ => true)
  }

  lemma SelectionIsRecorded(show: Value -> string, manifest: Value)
    ensures SelectionRecorded(SelectionOf(show, manifest), show, manifest)
  {
    var details := Items(SelectionEntry(manifest, "engine_details"));
    assert details == SelectionDetails(manifest);
    StatusRecorded(details, "missing_selection_accountability");
    StatusRecorded(details, "unverified_artifact");
    AllPicked(Coverage.AllGaps(show, details));
  }

  lemma AllPicked<T(!new)>(all: seq<T>)
    ensures Records(EntryFor(all), all, _ => true)
  {
    var at := seq(|all|, i requires 0 <= i < |all| => i);
    assert forall k: nat :: k < |all| ==> at[k] == k;
    EntryRecords(all, all, _ => true, _ => true, at);
  }

  // ----- Tickets -----

  lemma {:induction false} RaisingPicks(blockers: seq<Blocker>, c: Concern) returns (at: seq<nat>)
    ensures Picks(blockers, Raising(c, blockers), (b: Blocker) => Raises(c, b), (b: Blocker) => b, at)
  {
    at := [];
    if blockers != [] {
      var p := (b: Blocker) => Raises(c, b);
      var rest := RaisingPicks(blockers[1..], c);
      at := PicksNext(blockers, Raising(c, blockers[1..]), Raising(c, blockers), p, (b: Blocker) => b, rest);
    }
  }

  lemma RaisingRecorded(blockers: seq<Blocker>, c: Concern, q: Blocker -> bool)
    requires forall b :: q(b) <==> Raises(c, b)
    ensures Records(EntryFor(Raising(c, blockers)), blockers, q)
  {
    var at := RaisingPicks(blockers, c);
    EntryRecords(blockers, Raising(c, blockers), (b: Blocker) => Raises(c, b), q, at);
  }

  /** After the ticket overlay the decision has on record which blocking vulnerabilities are in scope, without a ticket,
      with a ticket whose sync is unhealthy, and overdue; ticketing is complete exactly when none is without a ticket or
      with an unhealthy one. */
  lemma TicketsRecorded(s: Snapshot, blockers: seq<Blocker>, required: bool)
    ensures var t := AfterTickets(s, blockers, required).ticketing;
            && t.Some? && t.value.required == required
            && Records(t.value.scoped, blockers, _ => true)
            && Records(t.value.unticketed, blockers, (b: Blocker) => !b.ticketed)
            && Records(t.value.unhealthy, blockers, (b: Blocker) => b.ticketed && b.syncUnhealthy)
            && Records(t.value.overdue, blockers, (b: Blocker) => b.overdue)
            && t.value.ticketed + t.value.unticketed.count == |blockers|
            && (t.value.complete <==> forall b :: b in blockers ==> b.ticketed && !b.syncUnhealthy)
    ensures AfterTickets(s, blockers, required).policy == s.policy[TicketedBlockingVulnerabilities := required]
  {
    AllPicked(blockers);
    RaisingRecorded(blockers, NoTicket, (b: Blocker) => !b.ticketed);
    RaisingRecorded(blockers, BadSync, (b: Blocker) => b.ticketed && b.syncUnhealthy);
    RaisingRecorded(blockers, Late, (b: Blocker) => b.overdue);
    NothingRaisedExactly(blockers);
  }
}
