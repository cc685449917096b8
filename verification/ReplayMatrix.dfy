/** The authorization replay matrix: attackers per endpoint, results per attacker, and the totals over endpoints. */
module ReplayMatrix {
  import opened Strings
  import opened Lists

  datatype Account = Account(id: string, replayable: bool)

  // ----- Who attacks -----

  function Replayable(accounts: seq<Account>): (ids: seq<string>)
    ensures forall id :: id in ids <==> Account(id, true) in accounts
  {
    if accounts == [] then []
    else
      assert accounts == [accounts[0]] + accounts[1..];
      (if accounts[0].replayable then [accounts[0].id] else []) + Replayable(accounts[1..])
  }

  function NonEmpty(ids: seq<string>): (r: seq<string>)
    ensures forall id :: id in r <==> id in ids && id != ""
  {
    if ids == [] then []
    else
      assert ids == [ids[0]] + ids[1..];
      (if ids[0] != "" then [ids[0]] else []) + NonEmpty(ids[1..])
  }

  function Among(ids: seq<string>, wanted: seq<string>): (r: seq<string>)
    ensures forall id :: id in r <==> id in ids && id in wanted
  {
    if ids == [] then []
    else
      assert ids == [ids[0]] + ids[1..];
      (if ids[0] in wanted then [ids[0]] else []) + Among(ids[1..], wanted)
  }

  function Except(ids: seq<string>, victim: Option<string>): (r: seq<string>)
    ensures forall id :: id in r <==> id in ids && victim != Some(id)
  {
    if ids == [] then []
    else
      assert ids == [ids[0]] + ids[1..];
      (if victim != Some(ids[0]) then [ids[0]] else []) + Except(ids[1..], victim)
  }

  /** The attackers, in account order; none when a requested account cannot attack or nobody is left. */
  function Attackers(accounts: seq<Account>, requested: seq<string>, victim: Option<string>): Option<seq<string>> {
    var ids, wanted := Replayable(accounts), NonEmpty(requested);
    var chosen := if wanted != [] then Among(ids, wanted) else Except(ids, victim);
    if (exists id :: id in wanted && id !in ids) || chosen == [] then None else Some(chosen)
  }

  /** Requested attackers are exactly the requested accounts, the victim included if asked for; the default set is every
      replayable account but the victim.  There is always at least one. */
  lemma AttackersExactly(accounts: seq<Account>, requested: seq<string>, victim: Option<string>)
    ensures var found, wanted := Attackers(accounts, requested, victim), NonEmpty(requested);
            && (found.Some? ==> found.value != [])
            && (found.Some? && wanted != [] ==> forall id :: id in found.value <==> id in wanted)
            && (found.Some? && wanted == [] ==>
                  forall id :: id in found.value <==> Account(id, true) in accounts && victim != Some(id))
            && (found.None? <==>
                  if wanted != [] then exists id :: id in wanted && Account(id, true) !in accounts
                  else forall id :: Account(id, true) in accounts ==> victim == Some(id))
  {
    var ids, wanted := Replayable(accounts), NonEmpty(requested);
    var byDefault := Except(ids, victim);
    if wanted != [] && wanted[0] in ids { assert wanted[0] in Among(ids, wanted); }
    if byDefault != [] { assert byDefault[0] in byDefault; }
  }

  lemma FirstReplayable(accounts: seq<Account>)
    requires accounts != []
    ensures Replayable(accounts)
         == (if accounts[0].replayable then [accounts[0].id] else []) + Replayable(accounts[1..])
  {
  }

  lemma FirstAmong(id: string, ids: seq<string>, wanted: seq<string>)
    ensures Among([id] + ids, wanted) == (if id in wanted then [id] else []) + Among(ids, wanted)
  {
    assert ([id] + ids)[1..] == ids;
  }

  lemma FirstExcept(id: string, ids: seq<string>, victim: Option<string>)
    ensures Except([id] + ids, victim) == (if victim != Some(id) then [id] else []) + Except(ids, victim)
  {
    assert ([id] + ids)[1..] == ids;
  }

  lemma {:induction false} AmongPicks(accounts: seq<Account>, wanted: seq<string>, p: Account -> bool,
                                      g: Account -> string) returns (at: seq<nat>)
    requires forall a :: p(a) <==> a.replayable && a.id in wanted
    requires forall a :: g(a) == a.id
    ensures Picks(accounts, Among(Replayable(accounts), wanted), p, g, at)
  {
    at := [];
    if accounts != [] {
      var rest := AmongPicks(accounts[1..], wanted, p, g);
      var ids := Replayable(accounts[1..]);
      FirstReplayable(accounts);
      FirstAmong(accounts[0].id, ids, wanted);
      assert [] + ids == ids;
      at := PicksNext(accounts, Among(ids, wanted), Among(Replayable(accounts), wanted), p, g, rest);
    }
  }

  lemma {:induction false} ExceptPicks(accounts: seq<Account>, victim: Option<string>, p: Account -> bool,
                                       g: Account -> string) returns (at: seq<nat>)
    requires forall a :: p(a) <==> a.replayable && victim != Some(a.id)
    requires forall a :: g(a) == a.id
    ensures Picks(accounts, Except(Replayable(accounts), victim), p, g, at)
  {
    at := [];
    if accounts != [] {
      var rest := ExceptPicks(accounts[1..], victim, p, g);
      var ids := Replayable(accounts[1..]);
      FirstReplayable(accounts);
      FirstExcept(accounts[0].id, ids, victim);
      assert [] + ids == ids;
      at := PicksNext(accounts, Except(ids, victim), Except(Replayable(accounts), victim), p, g, rest);
    }
  }

  /** The account may attack: it can replay, and it is requested, or when nobody is it is not the victim. */
  ghost predicate Attacks(a: Account, requested: seq<string>, victim: Option<string>) {
    && a.replayable
    && if exists id :: id in requested && id != "" then a.id in requested && a.id != "" else victim != Some(a.id)
  }

  /** The attackers are those accounts, in the order of the accounts. */
  lemma AttackersInOrder(accounts: seq<Account>, requested: seq<string>, victim: Option<string>)
    ensures var found := Attackers(accounts, requested, victim);
            found.Some? ==>
              Picked(accounts, found.value, (a: Account) => Attacks(a, requested, victim), (a: Account) => a.id)
  {
    var found, wanted := Attackers(accounts, requested, victim), NonEmpty(requested);
    var p, g := (a: Account) => Attacks(a, requested, victim), (a: Account) => a.id;
    if wanted != [] { assert wanted[0] in wanted; }
    if found.Some? {
      if wanted != [] {
        var at := AmongPicks(accounts, wanted, p, g);
        PicksAlike(accounts, found.value, p, p, g, g, at);
      } else {
        var at := ExceptPicks(accounts, victim, p, g);
        PicksAlike(accounts, found.value, p, p, g, g, at);
      }
    }
  }

  // ----- One endpoint -----

  /** How one replay goes.  `flushed` tells whether the result row was written before the error, and what it said. */
  datatype Replay =
    | Secure
    | Vulnerable(fingerprint: string)
    | Guarded
    | Raised(http: bool, flushed: Option<bool>)

  datatype TestRow = TestRow(endpoint: string, attacker: string, vulnerable: bool)

  datatype Item = Item(attacker: string, vulnerable: bool, skipped: bool)

  datatype Summary =
    | Completed(endpoint: string, attackersTested: nat, vulnerableCount: nat, created: nat, merged: nat,
                results: seq<Item>)
    | Skipped(endpoint: string)
    | Failed(endpoint: string)

  type Replays = string -> Replay

  function ItemFor(attacker: string, replay: Replay): Item {
    Item(attacker, replay.Vulnerable?, replay.Guarded?)
  }

  function OwnRow(endpoint: string, attacker: string, replay: Replay): seq<TestRow> {
    match replay
    case Secure => [TestRow(endpoint, attacker, false)]
    case Vulnerable(_) => [TestRow(endpoint, attacker, true)]
    case Guarded => []
    case Raised(_, flushed) => if flushed.Some? then [TestRow(endpoint, attacker, flushed.value)] else []
  }

  /** None of the first `n` replays ends in an error. */
  predicate Uneventful(attackers: seq<string>, replays: Replays, n: nat)
    requires n <= |attackers|
  {
    forall i :: 0 <= i < n ==> !replays(attackers[i]).Raised?
  }

  /** The rows that the first `n` replays write, up to and including the first error. */
  function RowsWritten(endpoint: string, attackers: seq<string>, replays: Replays, n: nat): seq<TestRow>
    requires n <= |attackers|
  {
    if n == 0 then []
    else
      var row := OwnRow(endpoint, attackers[n - 1], replays(attackers[n - 1]));
      RowsWritten(endpoint, attackers, replays, n - 1) + if Uneventful(attackers, replays, n - 1) then row else []
  }

  /** Nothing is written after an error. */
  lemma {:induction false} RowsStop(endpoint: string, attackers: seq<string>, replays: Replays, i: nat, n: nat)
    requires i < n <= |attackers| && replays(attackers[i]).Raised?
    ensures RowsWritten(endpoint, attackers, replays, n) == RowsWritten(endpoint, attackers, replays, i + 1)
  {
    if i + 1 < n {
      RowsStop(endpoint, attackers, replays, i, n - 1);
      var before := RowsWritten(endpoint, attackers, replays, n - 1);
      assert !Uneventful(attackers, replays, n - 1) by { assert replays(attackers[i]).Raised?; }
      assert RowsWritten(endpoint, attackers, replays, n) == before + [];
      assert before + [] == before;
    }
  }

  lemma ErrorEnds(endpoint: string, attackers: seq<string>, replays: Replays, i: nat)
    requires i < |attackers| && replays(attackers[i]).Raised? && Uneventful(attackers, replays, i)
    ensures RowsWritten(endpoint, attackers, replays, |attackers|)
         == RowsWritten(endpoint, attackers, replays, i) + OwnRow(endpoint, attackers[i], replays(attackers[i]))
    ensures !Uneventful(attackers, replays, |attackers|)
  {
    RowsStop(endpoint, attackers, replays, i, |attackers|);
  }

  function OwnPrint(replay: Replay): set<string> {
    if replay.Vulnerable? then {replay.fingerprint} else {}
  }

  function Fingerprints(attackers: seq<string>, replays: Replays, n: nat): set<string>
    requires n <= |attackers|
  {
    if n == 0 then {} else Fingerprints(attackers, replays, n - 1) + OwnPrint(replays(attackers[n - 1]))
  }

  function VulnerableItems(items: seq<Item>): nat {
    if items == [] then 0
    else VulnerableItems(items[..|items| - 1]) + if items[|items| - 1].vulnerable then 1 else 0
  }

  /** What a completed endpoint reports: one result per attacker, in order, and counts that say what the results say. */
  ghost predicate Accounts(s: Summary, endpoint: string, attackers: seq<string>, replays: Replays) {
    && s.Completed? && s.endpoint == endpoint && s.attackersTested == |attackers| == |s.results|
    && (forall i :: 0 <= i < |attackers| ==>
          && s.results[i].attacker == attackers[i]
          && (s.results[i].vulnerable <==> replays(attackers[i]).Vulnerable?)
          && (s.results[i].skipped <==> replays(attackers[i]).Guarded?))
    && s.vulnerableCount == VulnerableItems(s.results) == s.created + s.merged
  }

  /** The local variables of the loop over attackers. */
  datatype Tally = Tally(results: seq<Item>, vulnerable: nat, created: nat, merged: nat)

  function Counted(t: Tally, attacker: string, replay: Replay, isNew: bool): Tally {
    var results := t.results + [ItemFor(attacker, replay)];
    if !replay.Vulnerable? then t.(results := results)
    else if isNew then t.(results := results, vulnerable := t.vulnerable + 1, created := t.created + 1)
    else t.(results := results, vulnerable := t.vulnerable + 1, merged := t.merged + 1)
  }

  ghost predicate Tallies(t: Tally, attackers: seq<string>, replays: Replays, n: nat)
    requires n <= |attackers|
  {
    && |t.results| == n
    && (forall i :: 0 <= i < n ==> t.results[i] == ItemFor(attackers[i], replays(attackers[i])))
    && t.vulnerable == VulnerableItems(t.results) == t.created + t.merged
  }

  lemma TalliesNext(t: Tally, attackers: seq<string>, replays: Replays, n: nat, isNew: bool)
    requires n < |attackers| && Tallies(t, attackers, replays, n)
    ensures Tallies(Counted(t, attackers[n], replays(attackers[n]), isNew), attackers, replays, n + 1)
  {
    var item := ItemFor(attackers[n], replays(attackers[n]));
    assert (t.results + [item])[..|t.results|] == t.results;
  }

  /** An endpoint of the matrix: an early refusal if there is one, the inferred victim, and the replays. */
  datatype Case = Case(endpoint: string, refusal: Option<bool>, victim: Option<string>, replays: Replays)

  class Session {
    var rows: seq<TestRow>             // written test results, committed at the end even when an endpoint fails
    var fingerprints: set<string>      // of the known vulnerabilities

    constructor ()
      ensures rows == [] && fingerprints == {}
    {
      rows, fingerprints := [], {};
    }

    method RunEndpoint(c: Case, accounts: seq<Account>, requested: seq<string>) returns (s: Summary)
      modifies this
      ensures Reports(s, c, accounts, requested) && rows == old(rows) + RowsLeft(c, accounts, requested)
      ensures s.Completed? ==>
        var attackers := Attackers(accounts, requested, c.victim).value;
        && fingerprints == old(fingerprints) + Fingerprints(attackers, c.replays, |attackers|)
        && |fingerprints| == |old(fingerprints)| + s.created
    {
      if c.refusal.Some? {
        return if c.refusal.value then Skipped(c.endpoint) else Failed(c.endpoint);
      }
      var found := Attackers(accounts, requested, c.victim);
      if found.None? { return Skipped(c.endpoint); }
      s := Attack(c, found.value);
    }

    method Attack(c: Case, attackers: seq<string>) returns (s: Summary)
      modifies this
      ensures s.endpoint == c.endpoint
      ensures rows == old(rows) + RowsWritten(c.endpoint, attackers, c.replays, |attackers|)
      ensures s.Completed? <==> Uneventful(attackers, c.replays, |attackers|)
      ensures s.Skipped? <==> exists i: nat :: StopsByHttp(attackers, c.replays, i)
      ensures s.Completed? ==>
        && Accounts(s, c.endpoint, attackers, c.replays)
        && fingerprints == old(fingerprints) + Fingerprints(attackers, c.replays, |attackers|)
        && |fingerprints| == |old(fingerprints)| + s.created
    {
      var t := Tally([], 0, 0, 0);
      assert rows + [] == rows && fingerprints + {} == fingerprints;
      for i := 0 to |attackers|
        invariant Uneventful(attackers, c.replays, i) && Tallies(t, attackers, c.replays, i)
        invariant rows == old(rows) + RowsWritten(c.endpoint, attackers, c.replays, i)
        invariant fingerprints == old(fingerprints) + Fingerprints(attackers, c.replays, i)
        invariant |fingerprints| == |old(fingerprints)| + t.created
      {
        var replay := c.replays(attackers[i]);
        ghost var written := RowsWritten(c.endpoint, attackers, c.replays, i);
        Regroup(old(rows), written, OwnRow(c.endpoint, attackers[i], replay));
        RegroupSets(old(fingerprints), Fingerprints(attackers, c.replays, i), OwnPrint(replay));
        var isNew := Perform(c.endpoint, attackers[i], replay);
        assert rows == old(rows) + (written + OwnRow(c.endpoint, attackers[i], replay));
        if replay.Raised? {
          ErrorEnds(c.endpoint, attackers, c.replays, i);
          assert replay.http ==> StopsByHttp(attackers, c.replays, i);
          assert forall j: nat :: StopsByHttp(attackers, c.replays, j) ==> j == i;
          return if replay.http then Skipped(c.endpoint) else Failed(c.endpoint);
        }
        TalliesNext(t, attackers, c.replays, i, isNew);
        t := Counted(t, attackers[i], replay, isNew);
      }
      s := Completed(c.endpoint, |attackers|, t.vulnerable, t.created, t.merged, t.results);
    }

    /** One replay: the result row, and the vulnerability behind it. */
    method Perform(endpoint: string, attacker: string, replay: Replay) returns (isNew: bool)
      modifies this
      ensures rows == old(rows) + OwnRow(endpoint, attacker, replay)
      ensures fingerprints == old(fingerprints) + OwnPrint(replay)
      ensures |fingerprints| == |old(fingerprints)| + if isNew then 1 else 0
      ensures isNew ==> replay.Vulnerable?
    {
      WriteRow(endpoint, attacker, replay);
      isNew := false;
      if replay.Vulnerable? { isNew := CreateOrMerge(replay.fingerprint); }
    }

    method WriteRow(endpoint: string, attacker: string, replay: Replay)
      modifies `rows
      ensures rows == old(rows) + OwnRow(endpoint, attacker, replay)
    {
      match replay {
        case Guarded =>
        case Raised(_, flushed) =>
          if flushed.Some? { rows := rows + [TestRow(endpoint, attacker, flushed.value)]; }
        case Secure =>
          rows := rows + [TestRow(endpoint, attacker, false)];
        case Vulnerable(_) =>
          rows := rows + [TestRow(endpoint, attacker, true)];
      }
    }

    method CreateOrMerge(fingerprint: string) returns (isNew: bool)
      modifies `fingerprints
      ensures fingerprints == old(fingerprints) + {fingerprint}
      ensures |fingerprints| == |old(fingerprints)| + if isNew then 1 else 0
    {
      isNew := fingerprint !in fingerprints;
      assert !isNew ==> fingerprints + {fingerprint} == fingerprints;
      fingerprints := fingerprints + {fingerprint};
    }

    /** The run over all endpoints; an endpoint that fails is counted as an error and the run goes on. */
    method ScanMatrix(cases: seq<Case>, accounts: seq<Account>, requested: seq<string>) returns (report: Report)
      modifies this
      ensures |report.results| == |cases|
      ensures forall i :: 0 <= i < |cases| ==> Reports(report.results[i], cases[i], accounts, requested)
      ensures AddsUp(report) && rows == old(rows) + AllRows(cases, accounts, requested)
    {
      report := Report([], 0, 0, 0, 0, 0);
      assert cases[..0] == [] && rows + [] == rows;
      for i := 0 to |cases|
        invariant |report.results| == i && AddsUp(report)
        invariant forall j :: 0 <= j < i ==> Reports(report.results[j], cases[j], accounts, requested)
        invariant rows == old(rows) + AllRows(cases[..i], accounts, requested)
      {
        AllRowsNext(cases, accounts, requested, i);
        Regroup(old(rows), AllRows(cases[..i], accounts, requested), RowsLeft(cases[i], accounts, requested));
        var s := RunEndpoint(cases[i], accounts, requested);
        AddedReports(report, s, cases, accounts, requested);
        report := Added(report, s);
      }
      assert cases[..|cases|] == cases;
    }
  }

  // ----- Totals -----

  datatype Report = Report(results: seq<Summary>, attackers: nat, vulnerable: nat, created: nat, merged: nat,
                           errors: nat)

  function Added(r: Report, s: Summary): Report {
    if s.Completed? then
      Report(r.results + [s], r.attackers + s.attackersTested, r.vulnerable + s.vulnerableCount, r.created + s.created,
             r.merged + s.merged, r.errors)
    else r.(results := r.results + [s], errors := r.errors + 1)
  }

  predicate Completes(c: Case, accounts: seq<Account>, requested: seq<string>) {
    var attackers := Attackers(accounts, requested, c.victim);
    c.refusal.None? && attackers.Some? && Uneventful(attackers.value, c.replays, |attackers.value|)
  }

  /** Replay `i` is the first to end in an error, and the error is an HTTP error. */
  predicate StopsByHttp(attackers: seq<string>, replays: Replays, i: nat) {
    i < |attackers| && Uneventful(attackers, replays, i) && replays(attackers[i]).Raised? && replays(attackers[i]).http
  }

  /** The endpoint ends in an HTTP error: in an early refusal, for want of attackers, or in a replay. */
  ghost predicate EndsByHttp(c: Case, accounts: seq<Account>, requested: seq<string>) {
    var attackers := Attackers(accounts, requested, c.victim);
    if c.refusal.Some? then c.refusal.value
    else attackers.None? || exists i: nat :: StopsByHttp(attackers.value, c.replays, i)
  }

  /** The summary of an endpoint: complete with its results and counts, or an error that says which kind. */
  ghost predicate Reports(s: Summary, c: Case, accounts: seq<Account>, requested: seq<string>) {
    && s.endpoint == c.endpoint
    && (s.Skipped? <==> EndsByHttp(c, accounts, requested))
    && (s.Completed? <==> Completes(c, accounts, requested))
    && (s.Completed? ==> Accounts(s, c.endpoint, Attackers(accounts, requested, c.victim).value, c.replays))
  }

  /** A completed endpoint has a first result, which the single-endpoint scan answers with. */
  lemma FirstResultExists(s: Summary, c: Case, accounts: seq<Account>, requested: seq<string>)
    requires Reports(s, c, accounts, requested) && s.Completed?
    ensures |s.results| > 0 && s.results[0].attacker == Attackers(accounts, requested, c.victim).value[0]
  {
    AttackersExactly(accounts, requested, c.victim);
  }

  /** Every total is the sum of that count over the completed endpoints. */
  predicate AddsUp(r: Report) {
    && r.attackers == Tested(r.results) && r.vulnerable == Found(r.results) && r.errors == Errors(r.results)
    && r.created == Created(r.results) && r.merged == Merged(r.results)
  }

  /** Created and merged vulnerabilities together are the vulnerable results. */
  lemma {:induction false} CreatedPlusMerged(results: seq<Summary>)
    requires forall s :: s in results && s.Completed? ==> s.vulnerableCount == s.created + s.merged
    ensures Found(results) == Created(results) + Merged(results)
  {
    if results != [] {
      var before := results[..|results| - 1];
      assert results[|results| - 1] in results && forall s :: s in before ==> s in results;
      CreatedPlusMerged(before);
    }
  }

  lemma AddedReports(r: Report, s: Summary, cases: seq<Case>, accounts: seq<Account>, requested: seq<string>)
    requires |r.results| < |cases| && Reports(s, cases[|r.results|], accounts, requested)
    requires forall j :: 0 <= j < |r.results| ==> Reports(r.results[j], cases[j], accounts, requested)
    requires AddsUp(r)
    ensures AddsUp(Added(r, s)) && |Added(r, s).results| == |r.results| + 1
    ensures forall j :: 0 <= j <= |r.results| ==> Reports(Added(r, s).results[j], cases[j], accounts, requested)
  {
    assert (r.results + [s])[..|r.results|] == r.results;
  }

  lemma AllRowsNext(cases: seq<Case>, accounts: seq<Account>, requested: seq<string>, i: nat)
    requires i < |cases|
    ensures AllRows(cases[..i + 1], accounts, requested)
         == AllRows(cases[..i], accounts, requested) + RowsLeft(cases[i], accounts, requested)
  {
    assert cases[..i + 1][..i] == cases[..i];
  }

  /** The rows that the endpoint leaves behind, whether or not it completes. */
  function RowsLeft(c: Case, accounts: seq<Account>, requested: seq<string>): seq<TestRow> {
    var attackers := Attackers(accounts, requested, c.victim);
    if c.refusal.Some? || attackers.None? then []
    else RowsWritten(c.endpoint, attackers.value, c.replays, |attackers.value|)
  }

  function AllRows(cases: seq<Case>, accounts: seq<Account>, requested: seq<string>): seq<TestRow> {
    if cases == [] then []
    else AllRows(cases[..|cases| - 1], accounts, requested) + RowsLeft(cases[|cases| - 1], accounts, requested)
  }

  function Tested(results: seq<Summary>): nat {
    if results == [] then 0
    else
      var last := results[|results| - 1];
      Tested(results[..|results| - 1]) + if last.Completed? then last.attackersTested else 0
  }

  function Found(results: seq<Summary>): nat {
    if results == [] then 0
    else
      var last := results[|results| - 1];
      Found(results[..|results| - 1]) + if last.Completed? then last.vulnerableCount else 0
  }

  function Created(results: seq<Summary>): nat {
    if results == [] then 0
    else
      var last := results[|results| - 1];
      Created(results[..|results| - 1]) + if last.Completed? then last.created else 0
  }

  function Merged(results: seq<Summary>): nat {
    if results == [] then 0
    else
      var last := results[|results| - 1];
      Merged(results[..|results| - 1]) + if last.Completed? then last.merged else 0
  }

  function Errors(results: seq<Summary>): nat {
    if results == [] then 0
    else Errors(results[..|results| - 1]) + if results[|results| - 1].Completed? then 0 else 1
  }

  function Completions(results: seq<Summary>): nat {
    if results == [] then 0
    else Completions(results[..|results| - 1]) + if results[|results| - 1].Completed? then 1 else 0
  }

  /** Requested endpoints are the completed ones plus the skipped or failed ones. */
  lemma {:induction false} RequestedIsCompletedPlusErrors(results: seq<Summary>)
    ensures |results| == Completions(results) + Errors(results)
  {
    if results != [] { RequestedIsCompletedPlusErrors(results[..|results| - 1]); }
  }

  // ----- What is stored against what is reported -----

  function VulnerableRows(rows: seq<TestRow>): nat {
    if rows == [] then 0 else (if rows[0].vulnerable then 1 else 0) + VulnerableRows(rows[1..])
  }

  lemma {:induction false} VulnerableRowsConcat(xs: seq<TestRow>, ys: seq<TestRow>)
    ensures VulnerableRows(xs + ys) == VulnerableRows(xs) + VulnerableRows(ys)
  {
    if xs == [] {
      assert xs + ys == ys;
    } else {
      VulnerableRowsConcat(xs[1..], ys);
      assert (xs + ys)[1..] == xs[1..] + ys;
    }
  }

  lemma OwnRowCount(endpoint: string, attacker: string, replay: Replay)
    requires !replay.Raised?
    ensures VulnerableRows(OwnRow(endpoint, attacker, replay)) == if replay.Vulnerable? then 1 else 0
  {
  }

  lemma RowsNext(endpoint: string, attackers: seq<string>, replays: Replays, n: nat)
    requires n < |attackers| && Uneventful(attackers, replays, n + 1)
    ensures VulnerableRows(RowsWritten(endpoint, attackers, replays, n + 1))
         == VulnerableRows(RowsWritten(endpoint, attackers, replays, n))
            + if replays(attackers[n]).Vulnerable? then 1 else 0
  {
    var replay := replays(attackers[n]);
    OwnRowCount(endpoint, attackers[n], replay);
    VulnerableRowsConcat(RowsWritten(endpoint, attackers, replays, n), OwnRow(endpoint, attackers[n], replay));
  }

  lemma ItemsNext(items: seq<Item>, n: nat)
    requires n < |items|
    ensures VulnerableItems(items[..n + 1]) == VulnerableItems(items[..n]) + if items[n].vulnerable then 1 else 0
  {
    assert items[..n + 1][..n] == items[..n];
  }

  /** As long as no replay fails, as many vulnerable rows are written as results are vulnerable. */
  lemma {:induction false} RowsMatchItems(endpoint: string, attackers: seq<string>, replays: Replays, items: seq<Item>,
                                          n: nat)
    requires n <= |attackers| == |items| && Uneventful(attackers, replays, n)
    requires forall i :: 0 <= i < n ==> items[i] == ItemFor(attackers[i], replays(attackers[i]))
    ensures VulnerableRows(RowsWritten(endpoint, attackers, replays, n)) == VulnerableItems(items[..n])
  {
    if n > 0 {
      RowsMatchItems(endpoint, attackers, replays, items, n - 1);
      RowsNext(endpoint, attackers, replays, n - 1);
      ItemsNext(items, n - 1);
    }
  }

  lemma ReportedRows(s: Summary, c: Case, accounts: seq<Account>, requested: seq<string>)
    requires Reports(s, c, accounts, requested) && s.Completed?
    ensures VulnerableRows(RowsLeft(c, accounts, requested)) == s.vulnerableCount
  {
    var attackers := Attackers(accounts, requested, c.victim).value;
    RowsMatchItems(c.endpoint, attackers, c.replays, s.results, |attackers|);
    assert s.results[..|attackers|] == s.results;
  }

  ghost predicate AllReported(results: seq<Summary>, cases: seq<Case>, accounts: seq<Account>, requested: seq<string>) {
    |results| == |cases| && forall i :: 0 <= i < |cases| ==> Reports(results[i], cases[i], accounts, requested)
  }

  /** The vulnerable results that an endpoint wrote before an error ended it. */
  function FindingsLeft(c: Case, accounts: seq<Account>, requested: seq<string>): nat {
    if Completes(c, accounts, requested) then 0 else VulnerableRows(RowsLeft(c, accounts, requested))
  }

  function SumOver(f: Case -> nat, cases: seq<Case>): nat {
    if cases == [] then 0 else SumOver(f, cases[..|cases| - 1]) + f(cases[|cases| - 1])
  }

  lemma {:induction false} ZeroSum(f: Case -> nat, cases: seq<Case>)
    ensures SumOver(f, cases) == 0 <==> forall i :: 0 <= i < |cases| ==> f(cases[i]) == 0
  {
    if cases != [] {
      var n := |cases| - 1;
      ZeroSum(f, cases[..n]);
      assert forall i :: 0 <= i < n ==> cases[..n][i] == cases[i];
    }
  }

  function AllFindingsLeft(cases: seq<Case>, accounts: seq<Account>, requested: seq<string>): nat {
    SumOver(c => FindingsLeft(c, accounts, requested), cases)
  }

  lemma CaseRows(s: Summary, c: Case, accounts: seq<Account>, requested: seq<string>)
    requires Reports(s, c, accounts, requested)
    ensures VulnerableRows(RowsLeft(c, accounts, requested))
         == FindingsLeft(c, accounts, requested) + if s.Completed? then s.vulnerableCount else 0
  {
    if s.Completed? { ReportedRows(s, c, accounts, requested); }
  }

  /** The run stores the vulnerable results that it reports, and those of endpoints that failed afterwards. */
  lemma {:induction false} StoredIsReportedPlusLeft(results: seq<Summary>, cases: seq<Case>, accounts: seq<Account>,
                                                    requested: seq<string>)
    requires AllReported(results, cases, accounts, requested)
    ensures VulnerableRows(AllRows(cases, accounts, requested))
              == Found(results) + AllFindingsLeft(cases, accounts, requested)
  {
    if cases != [] {
      var n := |cases| - 1;
      StoredIsReportedPlusLeft(results[..n], cases[..n], accounts, requested);
      CaseRows(results[n], cases[n], accounts, requested);
      VulnerableRowsConcat(AllRows(cases[..n], accounts, requested), RowsLeft(cases[n], accounts, requested));
    }
  }

  /** The vulnerable results that the run stores are those that it
      reports exactly when no endpoint fails after writing one. */
  lemma StoredIsReportedExactly(report: Report, cases: seq<Case>, accounts: seq<Account>, requested: seq<string>)
    requires AllReported(report.results, cases, accounts, requested) && AddsUp(report)
    ensures VulnerableRows(AllRows(cases, accounts, requested)) == report.vulnerable <==>
              forall i :: 0 <= i < |cases| ==> FindingsLeft(cases[i], accounts, requested) == 0
  {
    StoredIsReportedPlusLeft(report.results, cases, accounts, requested);
    ZeroSum(c => FindingsLeft(c, accounts, requested), cases);
  }

  const TWO: seq<Account> := [Account("a", true), Account("b", true)]
  const UNLUCKY := Case("e", None, None, attacker => if attacker == "a" then Vulnerable("f") else Raised(false, None))

  /** The first attacker succeeds and its result is written; the
      replay of the second fails, and with it the endpoint. */
  lemma FailedEndpointLeavesAFinding()
    ensures !Completes(UNLUCKY, TWO, []) && FindingsLeft(UNLUCKY, TWO, []) == 1
  {
    assert TWO[1..] == [Account("b", true)] && TWO[1..][1..] == [];
    assert Replayable([Account("b", true)]) == ["b"] && Replayable(TWO) == ["a", "b"];
    assert ["a", "b"][1..] == ["b"] && ["b"][1..] == [];
    assert Except(["b"], None) == ["b"] && Except(["a", "b"], None) == ["a", "b"];
    var attackers := ["a", "b"];
    assert Attackers(TWO, [], None) == Some(attackers);
    assert UNLUCKY.replays(attackers[1]).Raised? && !UNLUCKY.replays(attackers[0]).Raised?;
    var replays := UNLUCKY.replays;
    assert RowsWritten("e", attackers, replays, 0) == [];
    assert RowsWritten("e", attackers, replays, 1) == [TestRow("e", "a", true)];
    assert RowsWritten("e", attackers, replays, 2) == [TestRow("e", "a", true)];
  }
}
