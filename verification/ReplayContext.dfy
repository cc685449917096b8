/** The authentication context that the gate reads off authorization-replay results. */
module ReplayContext {
  import opened Strings
  import opened Sorting
  import opened Json
  import opened Lists

  datatype Result = Result(evidence: Value, vulnerable: bool)

  /** Printing and redaction, which the gate gets from elsewhere. */
  datatype Printer = Printer(value: Value -> string, text: string -> string)

  type Pair = (string, string)

  /** What the loop gathers. */
  datatype Gathered = Gathered(
    pairs: set<Pair>, vulnerablePairs: set<Pair>, kinds: set<string>, compared: set<string>, changed: set<string>,
    alike: set<string>, issues: set<string>, boundaries: nat)

  const KINDS: set<string> := {"cross_tenant", "cross_account", "cross_role", "cross_scope", "cross_permission"}

  function Or(a: Value, b: Value): Value {
    if Truthy(a) then a else b
  }

  /** A dict, or the empty dict in place of anything else. */
  function DictOrEmpty(v: Value): Value {
    if v.Obj? then v else Obj(map[])
  }

  // ----- One result -----

  function Attacker(evidence: Value): Value {
    Get(Get(evidence, "identity_pair"), "attacker")
  }

  function Victim(evidence: Value): Value {
    Get(Get(evidence, "identity_pair"), "victim")
  }

  /** A replay with an identified attacker and headers that are a dict, if there is a replay request at all. */
  predicate Qualifies(r: Result) {
    var request := Get(r.evidence, "replay_request");
    && Get(r.evidence, "engine") == Str("authorization_replay")
    && Victim(r.evidence).Obj? && Attacker(r.evidence).Obj?
    && (Truthy(Get(Attacker(r.evidence), "id")) || Truthy(Get(Attacker(r.evidence), "role")))
    && (request.Obj? ==> Get(request, "headers").Obj?)
  }

  function Identity(show: Printer, who: Value): string {
    show.value(Or(Or(Get(who, "id"), Get(who, "role")), Str("unknown")))
  }

  function PairOf(show: Printer, evidence: Value): Pair {
    (Identity(show, Victim(evidence)), Identity(show, Attacker(evidence)))
  }

  function Rule(evidence: Value): Value {
    DictOrEmpty(Get(evidence, "matched_rule"))
  }

  function Items(v: Value): seq<Value> {
    if v.Arr? then v.items else []
  }

  function IssuesOf(show: Printer, evidence: Value): set<string> {
    var issue := Or(Get(evidence, "issue_type"), Get(Rule(evidence), "issue_type"));
    var classified := Items(Get(Get(evidence, "authorization_issue_classification"), "issue_types"));
    (if Truthy(issue) then {show.value(issue)} else {}) + set v | v in classified && Truthy(v) :: show.value(v)
  }

  predicate HasBoundary(evidence: Value) {
    Get(Rule(evidence), "identity_boundary").Obj? || Get(evidence, "authorization_boundary_coverage").Obj?
  }

  /** Coverage metadata, or failing that the rule's own boundary. */
  function Metadata(evidence: Value): Value {
    var coverage := Get(evidence, "authorization_boundary_coverage");
    if coverage.Obj? then coverage else DictOrEmpty(Get(Rule(evidence), "identity_boundary"))
  }

  function Word(v: Value): string {
    if v.Str? then Lower(Strip(v.s)) else ""
  }

  function KindsOf(metadata: Value, boundary: Value): set<string> {
    set v | v in Items(Get(metadata, "boundary_kinds")) + [
        Get(metadata, "primary_boundary_kind"), Get(metadata, "boundary_kind"), Get(boundary, "boundary_kind")]
      && Word(v) in KINDS :: Word(v)
  }

  predicate FieldName(name: string) {
    2 <= |name| <= 100 && name[0] == 'x' && name[1] == '-'
  }

  function FieldNames(show: Printer, v: Value): set<string> {
    set item | item in Items(v) && FieldName(Word(item)) :: show.text(Word(item))
  }

  // ----- What one result adds to each collection -----

  function Pairs(show: Printer): Result -> set<Pair> {
    r => if Qualifies(r) then {PairOf(show, r.evidence)} else {}
  }

  function VulnerablePairs(show: Printer): Result -> set<Pair> {
    r => if Qualifies(r) && r.vulnerable then {PairOf(show, r.evidence)} else {}
  }

  function Issues(show: Printer): Result -> set<string> {
    r => if Qualifies(r) then IssuesOf(show, r.evidence) else {}
  }

  function Boundaries(): Result -> nat {
    r => if Qualifies(r) && HasBoundary(r.evidence) then 1 else 0
  }

  function Kinds(): Result -> set<string> {
    r => if Qualifies(r) && HasBoundary(r.evidence)
      then KindsOf(Metadata(r.evidence), Get(Rule(r.evidence), "identity_boundary")) else {}
  }

  /** The boundary fields of one group; each group goes by two names. */
  function Fields(show: Printer, first: string, second: string): Result -> set<string> {
    r => if Qualifies(r) && HasBoundary(r.evidence)
      then FieldNames(show, Get(Metadata(r.evidence), first)) + FieldNames(show, Get(Metadata(r.evidence), second))
      else {}
  }

  function Union<T>(adds: Result -> set<T>, results: seq<Result>): set<T> {
    if results == [] then {} else adds(results[0]) + Union(adds, results[1..])
  }

  function Sum(adds: Result -> nat, results: seq<Result>): nat {
    if results == [] then 0 else adds(results[0]) + Sum(adds, results[1..])
  }

  function Gather(show: Printer, results: seq<Result>): Gathered {
    Gathered(
      Union(Pairs(show), results), Union(VulnerablePairs(show), results), Union(Kinds(), results),
      Union(Fields(show, "compared_fields", "compared_boundary_fields"), results),
      Union(Fields(show, "changed_fields", "changed_boundary_fields"), results),
      Union(Fields(show, "unchanged_fields", "unchanged_boundary_fields"), results),
      Union(Issues(show), results), Sum(Boundaries(), results))
  }

  // ----- The loop, and the context it returns -----

  datatype AuthContext =
    | Unauthenticated
    | ByReplay(
        pairCount: nat, vulnerablePairCount: nat, boundaryCount: nat, comparedCount: nat, changedCount: nat,
        unchangedCount: nat, kinds: seq<string>, compared: seq<string>, changed: seq<string>, alike: seq<string>,
        issues: seq<string>)

  function Summary(g: Gathered): AuthContext {
    if g.pairs == {} then Unauthenticated
    else
      ByReplay(
        |g.pairs|, |g.vulnerablePairs|, g.boundaries, |g.compared|, |g.changed|, |g.alike|,
        Sorted(g.kinds), Sorted(g.compared), Sorted(g.changed), Sorted(g.alike), Sorted(g.issues))
  }

  method AuthorizationReplayAuthContext(show: Printer, results: seq<Result>) returns (context: AuthContext)
    ensures context == Summary(Gather(show, results))
  {
    var pairs: set<Pair>, vulnerablePairs: set<Pair> := {}, {};
    var kinds: set<string>, issues: set<string> := {}, {};
    var compared: set<string>, changed: set<string>, alike: set<string> := {}, {}, {};
    var boundaries := 0;
    var comparing := Fields(show, "compared_fields", "compared_boundary_fields");
    var changing := Fields(show, "changed_fields", "changed_boundary_fields");
    var keeping := Fields(show, "unchanged_fields", "unchanged_boundary_fields");
    for i := 0 to |results|
      invariant pairs == Union(Pairs(show), results[..i])
      invariant vulnerablePairs == Union(VulnerablePairs(show), results[..i])
      invariant kinds == Union(Kinds(), results[..i]) && issues == Union(Issues(show), results[..i])
      invariant compared == Union(comparing, results[..i]) && changed == Union(changing, results[..i])
      invariant alike == Union(keeping, results[..i]) && boundaries == Sum(Boundaries(), results[..i])
    {
      var r := results[i];
      UnionNext(Pairs(show), results, i);
      UnionNext(VulnerablePairs(show), results, i);
      UnionNext(Kinds(), results, i);
      UnionNext(Issues(show), results, i);
      UnionNext(comparing, results, i);
      UnionNext(changing, results, i);
      UnionNext(keeping, results, i);
      SumNext(Boundaries(), results, i);
      if !Qualifies(r) { continue; }
      var pair := PairOf(show, r.evidence);
      pairs := pairs + {pair};
      if r.vulnerable { vulnerablePairs := vulnerablePairs + {pair}; }
      issues := issues + IssuesOf(show, r.evidence);
      if HasBoundary(r.evidence) {
        boundaries := boundaries + 1;
        kinds := kinds + KindsOf(Metadata(r.evidence), Get(Rule(r.evidence), "identity_boundary"));
        compared := compared + comparing(r);
        changed := changed + changing(r);
        alike := alike + keeping(r);
      }
    }
    assert results[..|results|] == results;
    context := Summary(Gathered(pairs, vulnerablePairs, kinds, compared, changed, alike, issues, boundaries));
  }

  // ----- The order and the grouping of the results do not matter -----

  lemma {:induction false} UnionConcat<T>(adds: Result -> set<T>, xs: seq<Result>, ys: seq<Result>)
    ensures Union(adds, xs + ys) == Union(adds, xs) + Union(adds, ys)
  {
    if xs == [] {
      assert xs + ys == ys;
    } else {
      UnionConcat(adds, xs[1..], ys);
      assert (xs + ys)[1..] == xs[1..] + ys;
    }
  }

  lemma {:induction false} SumConcat(adds: Result -> nat, xs: seq<Result>, ys: seq<Result>)
    ensures Sum(adds, xs + ys) == Sum(adds, xs) + Sum(adds, ys)
  {
    if xs == [] {
      assert xs + ys == ys;
    } else {
      SumConcat(adds, xs[1..], ys);
      assert (xs + ys)[1..] == xs[1..] + ys;
    }
  }

  lemma UnionNext<T>(adds: Result -> set<T>, results: seq<Result>, i: nat)
    requires i < |results|
    ensures Union(adds, results[..i + 1]) == Union(adds, results[..i]) + adds(results[i])
  {
    NextPrefix(results, i);
    UnionConcat(adds, results[..i], [results[i]]);
    assert [results[i]][1..] == [];
  }

  lemma SumNext(adds: Result -> nat, results: seq<Result>, i: nat)
    requires i < |results|
    ensures Sum(adds, results[..i + 1]) == Sum(adds, results[..i]) + adds(results[i])
  {
    NextPrefix(results, i);
    SumConcat(adds, results[..i], [results[i]]);
    assert [results[i]][1..] == [];
  }

  function Join(a: Gathered, b: Gathered): Gathered {
    Gathered(
      a.pairs + b.pairs, a.vulnerablePairs + b.vulnerablePairs, a.kinds + b.kinds, a.compared + b.compared,
      a.changed + b.changed, a.alike + b.alike, a.issues + b.issues, a.boundaries + b.boundaries)
  }

  /** Results gathered in two parts: the sets unite and the boundary counts add up. */
  lemma GatherConcat(show: Printer, xs: seq<Result>, ys: seq<Result>)
    ensures Gather(show, xs + ys) == Join(Gather(show, xs), Gather(show, ys))
  {
    UnionConcat(Pairs(show), xs, ys);
    UnionConcat(VulnerablePairs(show), xs, ys);
    UnionConcat(Kinds(), xs, ys);
    UnionConcat(Issues(show), xs, ys);
    UnionConcat(Fields(show, "compared_fields", "compared_boundary_fields"), xs, ys);
    UnionConcat(Fields(show, "changed_fields", "changed_boundary_fields"), xs, ys);
    UnionConcat(Fields(show, "unchanged_fields", "unchanged_boundary_fields"), xs, ys);
    SumConcat(Boundaries(), xs, ys);
  }

  lemma {:induction false} UnionExactly<T>(adds: Result -> set<T>, results: seq<Result>, x: T)
    ensures x in Union(adds, results) <==> exists r :: r in results && x in adds(r)
  {
    if results != [] {
      UnionExactly(adds, results[1..], x);
      assert results == [results[0]] + results[1..];
    }
  }

  lemma UnionWithin<T>(adds: Result -> set<T>, xs: seq<Result>, ys: seq<Result>)
    requires forall r :: r in xs ==> r in ys
    ensures Union(adds, xs) <= Union(adds, ys)
  {
    forall x | x in Union(adds, xs)
      ensures x in Union(adds, ys)
    {
      UnionExactly(adds, xs, x);
      var r :| r in xs && x in adds(r);
      UnionExactly(adds, ys, x);
    }
  }

  lemma UnionPermuted<T>(adds: Result -> set<T>, xs: seq<Result>, ys: seq<Result>)
    requires multiset(xs) == multiset(ys)
    ensures Union(adds, xs) == Union(adds, ys)
  {
    assert forall r :: r in xs <==> r in multiset(xs);
    assert forall r :: r in ys <==> r in multiset(ys);
    UnionWithin(adds, xs, ys);
    UnionWithin(adds, ys, xs);
  }

  lemma RemoveOne(xs: seq<Result>, ys: seq<Result>) returns (before: seq<Result>, after: seq<Result>)
    requires xs != [] && multiset(xs) == multiset(ys)
    ensures ys == before + [xs[0]] + after && multiset(xs[1..]) == multiset(before + after)
  {
    assert xs == [xs[0]] + xs[1..];
    assert xs[0] in multiset(ys);
    var j :| 0 <= j < |ys| && ys[j] == xs[0];
    before, after := ys[..j], ys[j + 1..];
    assert ys == before + [xs[0]] + after;
    assert multiset(ys) == multiset(before + after) + multiset{xs[0]};
    assert multiset(xs) == multiset(xs[1..]) + multiset{xs[0]};
    assert multiset(xs[1..]) == multiset(xs) - multiset{xs[0]};
    assert multiset(before + after) == multiset(ys) - multiset{xs[0]};
  }

  lemma {:induction false} SumPermuted(adds: Result -> nat, xs: seq<Result>, ys: seq<Result>)
    requires multiset(xs) == multiset(ys)
    ensures Sum(adds, xs) == Sum(adds, ys)
  {
    if xs == [] {
      assert |multiset(ys)| == 0;
    } else {
      var before, after := RemoveOne(xs, ys);
      SumPermuted(adds, xs[1..], before + after);
      SumConcat(adds, before + [xs[0]], after);
      SumConcat(adds, before, [xs[0]]);
      SumConcat(adds, before, after);
      assert [xs[0]][1..] == [];
    }
  }

  /** The context does not depend on the order of the results. */
  lemma ContextOfPermutation(show: Printer, xs: seq<Result>, ys: seq<Result>)
    requires multiset(xs) == multiset(ys)
    ensures Summary(Gather(show, xs)) == Summary(Gather(show, ys))
  {
    UnionPermuted(Pairs(show), xs, ys);
    UnionPermuted(VulnerablePairs(show), xs, ys);
    UnionPermuted(Kinds(), xs, ys);
    UnionPermuted(Issues(show), xs, ys);
    UnionPermuted(Fields(show, "compared_fields", "compared_boundary_fields"), xs, ys);
    UnionPermuted(Fields(show, "changed_fields", "changed_boundary_fields"), xs, ys);
    UnionPermuted(Fields(show, "unchanged_fields", "unchanged_boundary_fields"), xs, ys);
    SumPermuted(Boundaries(), xs, ys);
  }

  // ----- Bounds -----

  lemma Within<T>(a: set<T>, b: set<T>)
    requires a <= b
    ensures |a| <= |b|
  {
    assert b == a + (b - a);
  }

  lemma {:induction false} UnionOfSingles<T>(adds: Result -> set<T>, results: seq<Result>)
    requires forall r :: |adds(r)| <= 1
    ensures |Union(adds, results)| <= |results|
  {
    if results != [] {
      var first, rest := adds(results[0]), Union(adds, results[1..]);
      UnionOfSingles(adds, results[1..]);
      assert first + rest == (first - rest) + rest;
      Within(first - rest, first);
    }
  }

  lemma {:induction false} SumOfOnes(adds: Result -> nat, results: seq<Result>)
    requires forall r :: adds(r) <= 1
    ensures Sum(adds, results) <= |results|
  {
    if results != [] { SumOfOnes(adds, results[1..]); }
  }

  lemma PairsBySource(show: Printer, results: seq<Result>, pair: Pair)
    ensures pair in Union(Pairs(show), results) <==>
              exists r :: r in results && Qualifies(r) && PairOf(show, r.evidence) == pair
    ensures pair in Union(VulnerablePairs(show), results) <==>
              exists r :: r in results && Qualifies(r) && r.vulnerable && PairOf(show, r.evidence) == pair
  {
    UnionExactly(Pairs(show), results, pair);
    UnionExactly(VulnerablePairs(show), results, pair);
    assert forall r :: pair in Pairs(show)(r) <==> Qualifies(r) && PairOf(show, r.evidence) == pair;
    assert forall r :: pair in VulnerablePairs(show)(r) <==>
      Qualifies(r) && r.vulnerable && PairOf(show, r.evidence) == pair;
  }

  /** Authenticated exactly when some result is a qualifying replay; no count exceeds the number of results, nor the
      vulnerable pairs the pairs. */
  lemma AuthenticatedExactly(show: Printer, results: seq<Result>)
    ensures var c := Summary(Gather(show, results));
            && (c.ByReplay? <==> exists r :: r in results && Qualifies(r))
            && (c.ByReplay? ==> c.vulnerablePairCount <= c.pairCount <= |results| && c.boundaryCount <= |results|)
  {
    var pairs, vulnerable := Union(Pairs(show), results), Union(VulnerablePairs(show), results);
    forall pair
      ensures pair in vulnerable ==> pair in pairs
      ensures pair in pairs ==> exists r :: r in results && Qualifies(r)
    {
      PairsBySource(show, results, pair);
    }
    forall r | r in results && Qualifies(r)
      ensures PairOf(show, r.evidence) in pairs
    {
      PairsBySource(show, results, PairOf(show, r.evidence));
    }
    if pairs != {} { var pair :| pair in pairs; }
    Within(vulnerable, pairs);
    UnionOfSingles(Pairs(show), results);
    SumOfOnes(Boundaries(), results);
  }
}
