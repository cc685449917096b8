/** What the replay context says of the results, entry by entry. */
module ReplayReading {
  import opened Strings
  import opened Sorting
  import opened Json
  import opened Lists
  import opened ReplayContext

  // ----- Which results count, and between whom -----

  /** The evidence of an authorization replay between a victim and an attacker with an id or a role, and with headers if
      the request is on record. */
  predicate Replays(evidence: Value) {
    var pair, request := Get(evidence, "identity_pair"), Get(evidence, "replay_request");
    && Get(evidence, "engine") == Str("authorization_replay")
    && Get(pair, "victim").Obj? && Get(pair, "attacker").Obj?
    && (Truthy(Get(Get(pair, "attacker"), "id")) || Truthy(Get(Get(pair, "attacker"), "role")))
    && (request.Obj? ==> Has(request, "headers") && Get(request, "headers").Obj?)
  }

  /** Somebody goes by an id, failing that by a role, and failing both by the word unknown. */
  ghost predicate GoesBy(show: Printer, who: Value, name: string) {
    var id, role := Get(who, "id"), Get(who, "role");
    && (Truthy(id) ==> name == show.value(id))
    && (!Truthy(id) && Truthy(role) ==> name == show.value(role))
    && (!Truthy(id) && !Truthy(role) ==> name == show.value(Str("unknown")))
  }

  ghost predicate IsPair(show: Printer, evidence: Value, pair: Pair) {
    var identities := Get(evidence, "identity_pair");
    GoesBy(show, Get(identities, "victim"), pair.0) && GoesBy(show, Get(identities, "attacker"), pair.1)
  }

  lemma PairExactly(show: Printer, r: Result, pair: Pair)
    ensures Qualifies(r) <==> Replays(r.evidence)
    ensures PairOf(show, r.evidence) == pair <==> IsPair(show, r.evidence, pair)
  {
  }

  // ----- What a result says of the boundary between them -----

  /** The coverage on record or, failing that, the boundary of the matched rule, describes the boundary. */
  ghost predicate Describes(evidence: Value, metadata: Value) {
    var coverage := Get(evidence, "authorization_boundary_coverage");
    var boundary := Get(Get(evidence, "matched_rule"), "identity_boundary");
    metadata.Obj? && metadata == if coverage.Obj? then coverage else boundary
  }

  lemma DescribesExactly(evidence: Value)
    ensures HasBoundary(evidence) <==> exists metadata :: Describes(evidence, metadata)
    ensures HasBoundary(evidence) ==> Describes(evidence, Metadata(evidence))
    ensures Get(Rule(evidence), "identity_boundary") == Get(Get(evidence, "matched_rule"), "identity_boundary")
  {
    var coverage := Get(evidence, "authorization_boundary_coverage");
    if coverage.Obj? { assert Describes(evidence, coverage); }
    var boundary := Get(Get(evidence, "matched_rule"), "identity_boundary");
    if !coverage.Obj? && boundary.Obj? { assert Describes(evidence, boundary); }
  }

  predicate ListedIn(v: Value, item: Value) {
    v.Arr? && item in v.items
  }

  /** A field is named under one of two keys, by a text that is `x-` and more, 100 characters at most, up to case and
      outer blanks. */
  ghost predicate NamesField(show: Printer, evidence: Value, first: string, second: string, field: string) {
    exists metadata, item :: Describes(evidence, metadata)
      && (ListedIn(Get(metadata, first), item) || ListedIn(Get(metadata, second), item))
      && item.Str?
      && var name := Lower(Strip(item.s)); "x-" <= name && |name| <= 100 && field == show.text(name)
  }

  /** The places where a kind of boundary is named. */
  predicate KindItem(metadata: Value, boundary: Value, item: Value) {
    || ListedIn(Get(metadata, "boundary_kinds"), item)
    || item in {Get(metadata, "primary_boundary_kind"), Get(metadata, "boundary_kind"), Get(boundary, "boundary_kind")}
  }

  /** One of the five kinds is named in the list of kinds, as the primary kind, or as the kind of the coverage or of the
      rule's own boundary. */
  ghost predicate NamesKind(evidence: Value, kind: string) {
    && kind in {"cross_tenant", "cross_account", "cross_role", "cross_scope", "cross_permission"}
    && exists metadata, item :: Describes(evidence, metadata)
         && KindItem(metadata, Get(Get(evidence, "matched_rule"), "identity_boundary"), item)
         && item.Str? && Lower(Strip(item.s)) == kind
  }

  /** An issue is named by the evidence, by the matched rule if the evidence names none, or by the classification. */
  ghost predicate NamesIssue(show: Printer, evidence: Value, issue: string) {
    exists item :: Truthy(item) && issue == show.value(item)
      && (item == Get(evidence, "issue_type")
          || (!Truthy(Get(evidence, "issue_type")) && item == Get(Get(evidence, "matched_rule"), "issue_type"))
          || ListedIn(Get(Get(evidence, "authorization_issue_classification"), "issue_types"), item))
  }

  lemma PrefixExactly(name: string)
    ensures FieldName(name) <==> "x-" <= name && |name| <= 100
  {
    if |name| >= 2 { assert name[..2] == [name[0], name[1]]; }
  }

  lemma FieldsExactly(show: Printer, first: string, second: string, r: Result, field: string)
    ensures field in Fields(show, first, second)(r) <==>
              Replays(r.evidence) && NamesField(show, r.evidence, first, second, field)
  {
    DescribesExactly(r.evidence);
    var metadata := Metadata(r.evidence);
    forall item: Value
      ensures FieldName(Word(item)) <==>
                item.Str? && "x-" <= Lower(Strip(item.s)) && |Lower(Strip(item.s))| <= 100
    {
      PrefixExactly(Word(item));
    }
    if Qualifies(r) && HasBoundary(r.evidence) && field in Fields(show, first, second)(r) {
      var item :| (item in Items(Get(metadata, first)) || item in Items(Get(metadata, second)))
        && FieldName(Word(item)) && field == show.text(Word(item));
      assert ListedIn(Get(metadata, first), item) || ListedIn(Get(metadata, second), item);
    }
  }

  lemma KindsByItem(metadata: Value, boundary: Value, kind: string)
    ensures kind in KindsOf(metadata, boundary) <==>
              && kind in {"cross_tenant", "cross_account", "cross_role", "cross_scope", "cross_permission"}
              && exists item :: KindItem(metadata, boundary, item) && item.Str? && Lower(Strip(item.s)) == kind
  {
    EmptyIsNoKind();
    var items := Items(Get(metadata, "boundary_kinds")) + [
      Get(metadata, "primary_boundary_kind"), Get(metadata, "boundary_kind"), Get(boundary, "boundary_kind")];
    forall item: Value
      ensures item in items <==> KindItem(metadata, boundary, item)
    {
    }
    if kind in KindsOf(metadata, boundary) {
      var item :| item in items && Word(item) in KINDS && Word(item) == kind;
      assert KindItem(metadata, boundary, item);
    }
  }

  lemma KindsExactly(r: Result, kind: string)
    ensures kind in Kinds()(r) <==> Replays(r.evidence) && NamesKind(r.evidence, kind)
  {
    DescribesExactly(r.evidence);
    KindsByItem(Metadata(r.evidence), Get(Get(r.evidence, "matched_rule"), "identity_boundary"), kind);
  }

  lemma EmptyIsNoKind()
    ensures "" !in KINDS
  {
    assert |"cross_tenant"| == 12 && |"cross_account"| == 13 && |"cross_role"| == 10 && |"cross_scope"| == 11;
    assert |"cross_permission"| == 16;
  }

  lemma IssuesExactly(show: Printer, r: Result, issue: string)
    ensures issue in Issues(show)(r) <==> Replays(r.evidence) && NamesIssue(show, r.evidence, issue)
  {
    var own, rule := Get(r.evidence, "issue_type"), Get(Get(r.evidence, "matched_rule"), "issue_type");
    assert Get(Rule(r.evidence), "issue_type") == rule;
    var classified := Get(Get(r.evidence, "authorization_issue_classification"), "issue_types");
    assert forall v :: v in Items(classified) <==> ListedIn(classified, v);
  }

  // ----- The whole context -----

  /** A list of the context is strictly sorted and holds exactly what some replay names. */
  ghost predicate ListsExactly(listed: seq<string>, count: nat, results: seq<Result>, names: (Value, string) -> bool) {
    && StrictlySorted(listed) && count == |listed|
    && forall x :: x in listed <==> exists r :: r in results && Replays(r.evidence) && names(r.evidence, x)
  }

  lemma SortedLists(s: set<string>, adds: Result -> set<string>, results: seq<Result>, names: (Value, string) -> bool)
    requires s == Union(adds, results)
    requires forall r, x :: x in adds(r) <==> Replays(r.evidence) && names(r.evidence, x)
    ensures ListsExactly(Sorted(s), |s|, results, names)
  {
    SortedLength(s);
    forall x
      ensures x in s <==> exists r :: r in results && Replays(r.evidence) && names(r.evidence, x)
    {
      UnionExactly(adds, results, x);
    }
  }

  lemma {:induction false} SortedLength(s: set<string>)
    ensures |Sorted(s)| == |s|
  {
    var sorted := Sorted(s);
    forall i, j | 0 <= i < j < |sorted|
      ensures sorted[i] != sorted[j]
    {
      LessIrreflexive(sorted[i]);
    }
    DistinctCount(sorted);
    assert s == set x | x in sorted;
  }

  lemma {:induction false} DistinctCount(xs: seq<string>)
    requires forall i, j :: 0 <= i < j < |xs| ==> xs[i] != xs[j]
    ensures |set x | x in xs| == |xs|
  {
    var all := set x | x in xs;
    if xs == [] {
      assert all == {};
    } else {
      var rest := xs[1..];
      DistinctCount(rest);
      assert xs == [xs[0]] + rest;
      assert all == {xs[0]} + set x | x in rest;
    }
  }

  /** The result is a replay with a boundary on record. */
  ghost predicate Bounded(r: Result) {
    Replays(r.evidence) && exists metadata :: Describes(r.evidence, metadata)
  }

  lemma {:induction false} BoundariesCount(results: seq<Result>)
    ensures Sum(Boundaries(), results) == HowMany(results, (r: Result) => Bounded(r))
  {
    if results != [] {
      HowManyNext(results, (r: Result) => Bounded(r));
      BoundariesCount(results[..|results| - 1]);
      SumLast(results);
    }
  }

  lemma SumLast(results: seq<Result>)
    requires results != []
    ensures var n := |results| - 1;
            Sum(Boundaries(), results) == Sum(Boundaries(), results[..n]) + if Bounded(results[n]) then 1 else 0
  {
    var n := |results| - 1;
    SumNext(Boundaries(), results, n);
    assert results[..n + 1] == results;
    BoundedExactly(results[n]);
  }

  lemma BoundedExactly(r: Result)
    ensures Boundaries()(r) == if Bounded(r) then 1 else 0
  {
    PairExactly(Printer(_ => "", _ => ""), r, ("", ""));
    DescribesExactly(r.evidence);
  }

  /** The pairs counted are those of the replays, and the vulnerable ones those of the vulnerable replays. */
  lemma PairsExactly(show: Printer, results: seq<Result>)
    ensures var g := Gather(show, results);
            && (forall pair :: pair in g.pairs <==>
                  exists r :: r in results && Replays(r.evidence) && IsPair(show, r.evidence, pair))
            && (forall pair :: pair in g.vulnerablePairs <==>
                  exists r :: r in results && Replays(r.evidence) && r.vulnerable && IsPair(show, r.evidence, pair))
  {
    forall pair
      ensures pair in Union(Pairs(show), results) <==>
                exists r :: r in results && Replays(r.evidence) && IsPair(show, r.evidence, pair)
      ensures pair in Union(VulnerablePairs(show), results) <==>
                exists r :: r in results && Replays(r.evidence) && r.vulnerable && IsPair(show, r.evidence, pair)
    {
      PairsBySource(show, results, pair);
      forall r: Result
        ensures Qualifies(r) && PairOf(show, r.evidence) == pair <==>
                  Replays(r.evidence) && IsPair(show, r.evidence, pair)
      {
        PairExactly(show, r, pair);
      }
    }
  }

  ghost predicate KindsListed(listed: seq<string>, results: seq<Result>) {
    ListsExactly(listed, |listed|, results, (e, x) => NamesKind(e, x))
  }

  ghost predicate FieldsListed(show: Printer, listed: seq<string>, count: nat, results: seq<Result>, first: string,
                               second: string) {
    ListsExactly(listed, count, results, (e, x) => NamesField(show, e, first, second, x))
  }

  ghost predicate IssuesListed(show: Printer, listed: seq<string>, results: seq<Result>) {
    ListsExactly(listed, |listed|, results, (e, x) => NamesIssue(show, e, x))
  }

  /** The context of a replayed run counts the pairs, the vulnerable pairs and the results with a boundary, and lists in
      order, and counts, exactly the kinds, fields and issues that the replays name. */
  lemma ContextExactly(show: Printer, results: seq<Result>)
    ensures Summary(Gather(show, results)).ByReplay? <==> exists r :: r in results && Replays(r.evidence)
    ensures var c, g := Summary(Gather(show, results)), Gather(show, results);
            c.ByReplay? ==>
              && c.pairCount == |g.pairs| && c.vulnerablePairCount == |g.vulnerablePairs|
              && c.boundaryCount == HowMany(results, (r: Result) => Bounded(r))
              && KindsListed(c.kinds, results) && IssuesListed(show, c.issues, results)
              && FieldsListed(show, c.compared, c.comparedCount, results, "compared_fields", "compared_boundary_fields")
              && FieldsListed(show, c.changed, c.changedCount, results, "changed_fields", "changed_boundary_fields")
              && FieldsListed(show, c.alike, c.unchangedCount, results, "unchanged_fields", "unchanged_boundary_fields")
  {
    AuthenticatedExactly(show, results);
    forall r: Result
      ensures Qualifies(r) <==> Replays(r.evidence)
    {
      PairExactly(show, r, ("", ""));
    }
    BoundariesCount(results);
    KindsOfUnion(results);
    IssuesOfUnion(show, results);
    FieldsOfUnion(show, results, "compared_fields", "compared_boundary_fields");
    FieldsOfUnion(show, results, "changed_fields", "changed_boundary_fields");
    FieldsOfUnion(show, results, "unchanged_fields", "unchanged_boundary_fields");
  }

  lemma KindsOfUnion(results: seq<Result>)
    ensures KindsListed(Sorted(Union(Kinds(), results)), results)
  {
    forall r, x
      ensures x in Kinds()(r) <==> Replays(r.evidence) && NamesKind(r.evidence, x)
    {
      KindsExactly(r, x);
    }
    var s := Union(Kinds(), results);
    SortedLists(s, Kinds(), results, (e, x) => NamesKind(e, x));
    SortedLength(s);
  }

  lemma FieldsOfUnion(show: Printer, results: seq<Result>, first: string, second: string)
    ensures var s := Union(Fields(show, first, second), results);
            FieldsListed(show, Sorted(s), |s|, results, first, second)
  {
    forall r, x
      ensures x in Fields(show, first, second)(r) <==>
                Replays(r.evidence) && NamesField(show, r.evidence, first, second, x)
    {
      FieldsExactly(show, first, second, r, x);
    }
    SortedLists(Union(Fields(show, first, second), results), Fields(show, first, second), results,
                (e, x) => NamesField(show, e, first, second, x));
  }

  lemma IssuesOfUnion(show: Printer, results: seq<Result>)
    ensures IssuesListed(show, Sorted(Union(Issues(show), results)), results)
  {
    forall r, x
      ensures x in Issues(show)(r) <==> Replays(r.evidence) && NamesIssue(show, r.evidence, x)
    {
      IssuesExactly(show, r, x);
    }
    var s := Union(Issues(show), results);
    SortedLists(s, Issues(show), results, (e, x) => NamesIssue(show, e, x));
    SortedLength(s);
  }
}
