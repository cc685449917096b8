/** Dashboard figures: severity histograms per endpoint, the endpoints at most risk, the risk score and SLA counts. */
module Dashboard {
  import opened Strings
  import opened Lists

  /** "" stands for an empty column; `slaDue` is the due time, if the finding has one. */
  datatype Finding = Finding(endpointId: string, severity: string, slaDue: Option<int>)

  function Severity(f: Finding): string {
    Upper(if f.severity == "" then "INFO" else f.severity)
  }

  function Weight(severity: string): nat {
    if severity == "CRITICAL" then 25 else if severity == "HIGH" then 15 else if severity == "MEDIUM" then 5
    else if severity == "LOW" then 1 else 0
  }

  // ----- Counting by severity: a dict keeps its keys in order of insertion -----

  datatype Count = Count(severity: string, n: nat)

  function Bumped(counts: seq<Count>, severity: string): seq<Count> {
    if counts == [] then [Count(severity, 1)]
    else if counts[0].severity == severity then [Count(severity, counts[0].n + 1)] + counts[1..]
    else [counts[0]] + Bumped(counts[1..], severity)
  }

  function CountOf(counts: seq<Count>, severity: string): nat {
    if counts == [] then 0
    else (if counts[0].severity == severity then counts[0].n else 0) + CountOf(counts[1..], severity)
  }

  function Total(counts: seq<Count>): nat {
    if counts == [] then 0 else counts[0].n + Total(counts[1..])
  }

  function Weighted(counts: seq<Count>): nat {
    if counts == [] then 0 else Weight(counts[0].severity) * counts[0].n + Weighted(counts[1..])
  }

  /** One more finding of a severity: its count, the total and the weighted sum grow accordingly. */
  lemma {:induction false} BumpedExactly(counts: seq<Count>, severity: string, other: string)
    ensures CountOf(Bumped(counts, severity), other) == CountOf(counts, other) + if other == severity then 1 else 0
    ensures Total(Bumped(counts, severity)) == Total(counts) + 1
    ensures Weighted(Bumped(counts, severity)) == Weighted(counts) + Weight(severity)
  {
    if counts == [] {
      assert Bumped(counts, severity)[1..] == [];
    } else if counts[0].severity == severity {
      assert Bumped(counts, severity)[1..] == counts[1..];
    } else {
      BumpedExactly(counts[1..], severity, other);
      assert Bumped(counts, severity)[1..] == Bumped(counts[1..], severity);
    }
  }

  // ----- The histogram per endpoint -----

  datatype Entry = Entry(endpointId: string, counts: seq<Count>)

  function Added(histogram: seq<Entry>, id: string, severity: string): seq<Entry> {
    if histogram == [] then [Entry(id, Bumped([], severity))]
    else if histogram[0].endpointId == id then [Entry(id, Bumped(histogram[0].counts, severity))] + histogram[1..]
    else [histogram[0]] + Added(histogram[1..], id, severity)
  }

  function Histogram(findings: seq<Finding>): seq<Entry> {
    if findings == [] then []
    else
      var before, f := Histogram(findings[..|findings| - 1]), findings[|findings| - 1];
      if f.endpointId == "" then before else Added(before, f.endpointId, Severity(f))
  }

  /** The findings at one endpoint. */
  function At(findings: seq<Finding>, id: string): seq<Finding> {
    if findings == [] then []
    else
      var last := findings[|findings| - 1];
      At(findings[..|findings| - 1], id) + if last.endpointId == id then [last] else []
  }

  function OfSeverity(findings: seq<Finding>, severity: string): nat {
    if findings == [] then 0
    else
      OfSeverity(findings[..|findings| - 1], severity) + if Severity(findings[|findings| - 1]) == severity then 1 else 0
  }

  function Weights(findings: seq<Finding>): nat {
    if findings == [] then 0 else Weights(findings[..|findings| - 1]) + Weight(Severity(findings[|findings| - 1]))
  }

  /** How many findings are of a severity, whatever its case. */
  ghost function Named(findings: seq<Finding>, severity: string): nat {
    HowMany(findings, (f: Finding) => Upper(f.severity) == severity)
  }

  lemma NamedNext(findings: seq<Finding>, severity: string)
    requires findings != []
    ensures var n := |findings| - 1;
            Named(findings, severity)
            == Named(findings[..n], severity) + if Upper(findings[n].severity) == severity then 1 else 0
  {
    HowManyNext(findings, (f: Finding) => Upper(f.severity) == severity);
  }

  /** A critical finding weighs 25, a high one 15, a medium one 5, a low one 1, and every other nothing. */
  lemma {:induction false} WeightsExactly(findings: seq<Finding>)
    ensures Weights(findings) == 25 * Named(findings, "CRITICAL") + 15 * Named(findings, "HIGH")
                                 + 5 * Named(findings, "MEDIUM") + Named(findings, "LOW")
  {
    if findings != [] {
      var n := |findings| - 1;
      WeightsExactly(findings[..n]);
      NamedNext(findings, "CRITICAL");
      NamedNext(findings, "HIGH");
      NamedNext(findings, "MEDIUM");
      NamedNext(findings, "LOW");
      WeightExactly(findings[n]);
    }
  }

  lemma WeightExactly(f: Finding)
    ensures var s := Upper(f.severity);
            Weight(Severity(f)) == (if s == "CRITICAL" then 25 else 0) + (if s == "HIGH" then 15 else 0)
                                   + (if s == "MEDIUM" then 5 else 0) + if s == "LOW" then 1 else 0
  {
    assert |"CRITICAL"| == 8 && |"HIGH"| == 4 && |"MEDIUM"| == 6 && |"LOW"| == 3 && |"INFO"| == 4;
    assert Upper("INFO") == "INFO" && Upper("") == "" && "INFO"[0] == 'I' && "HIGH"[0] == 'H';
  }

  /** An empty severity counts as INFO; any other counts under its own name. */
  lemma {:induction false} OfSeverityExactly(findings: seq<Finding>, severity: string)
    requires severity != ""
    ensures OfSeverity(findings, severity)
         == Named(findings, severity) + if severity == "INFO" then Named(findings, "") else 0
  {
    if findings != [] {
      var n := |findings| - 1;
      OfSeverityExactly(findings[..n], severity);
      NamedNext(findings, severity);
      NamedNext(findings, "");
      assert Upper(findings[n].severity) == "" <==> findings[n].severity == "";
      assert Upper("INFO") == "INFO";
    }
  }

  ghost predicate UniqueIds(histogram: seq<Entry>) {
    forall i, j :: 0 <= i < j < |histogram| ==> histogram[i].endpointId != histogram[j].endpointId
  }

  /** The entry says of its endpoint what the findings say. */
  ghost predicate Describes(e: Entry, findings: seq<Finding>) {
    var here := At(findings, e.endpointId);
    && here != [] && e.endpointId != ""
    && Total(e.counts) == |here| && Weighted(e.counts) == Weights(here)
    && forall s :: CountOf(e.counts, s) == OfSeverity(here, s)
  }

  lemma {:induction false} AddedIds(histogram: seq<Entry>, id: string, severity: string)
    requires UniqueIds(histogram)
    ensures UniqueIds(Added(histogram, id, severity))
    ensures forall e :: e in Added(histogram, id, severity) ==>
              e.endpointId == id || (e in histogram && e.endpointId != id)
    ensures forall e :: e in histogram && e.endpointId != id ==> e in Added(histogram, id, severity)
    ensures exists e :: e in Added(histogram, id, severity) && e.endpointId == id
  {
    if histogram == [] {
      assert Added(histogram, id, severity)[0].endpointId == id;
    } else {
      var rest := histogram[1..];
      assert histogram == [histogram[0]] + rest;
      if histogram[0].endpointId == id {
        assert Added(histogram, id, severity)[0].endpointId == id;
        assert forall e :: e in rest ==> e.endpointId != id;
      } else {
        assert UniqueIds(rest);
        AddedIds(rest, id, severity);
        var tail := Added(rest, id, severity);
        forall i | 0 <= i < |tail|
          ensures tail[i].endpointId != histogram[0].endpointId
        {
          assert tail[i] in tail;
        }
      }
    }
  }

  /** The entry of the endpoint itself: bumped from what was there, or from nothing. */
  lemma {:induction false} AddedEntry(histogram: seq<Entry>, id: string, severity: string, e: Entry)
    requires UniqueIds(histogram) && e in Added(histogram, id, severity) && e.endpointId == id
    ensures (exists was :: was in histogram && was.endpointId == id && e == Entry(id, Bumped(was.counts, severity)))
         || ((forall was :: was in histogram ==> was.endpointId != id) && e == Entry(id, Bumped([], severity)))
  {
    if histogram != [] {
      var rest := histogram[1..];
      assert histogram == [histogram[0]] + rest;
      if histogram[0].endpointId == id {
        assert forall r :: r in rest ==> r.endpointId != id;
        assert histogram[0] in histogram;
      } else {
        assert UniqueIds(rest);
        AddedEntry(rest, id, severity, e);
      }
    }
  }

  lemma DescribedByMore(e: Entry, findings: seq<Finding>, f: Finding)
    requires f.endpointId == e.endpointId
    requires Describes(e, findings) || (e.counts == [] && At(findings, e.endpointId) == [] && e.endpointId != "")
    ensures Describes(Entry(e.endpointId, Bumped(e.counts, Severity(f))), findings + [f])
  {
    var here := At(findings, e.endpointId);
    assert (findings + [f])[..|findings|] == findings;
    assert At(findings + [f], e.endpointId) == here + [f];
    assert (here + [f])[..|here|] == here;
    forall s
      ensures CountOf(Bumped(e.counts, Severity(f)), s) == OfSeverity(here + [f], s)
    {
      BumpedExactly(e.counts, Severity(f), s);
    }
    BumpedExactly(e.counts, Severity(f), "");
  }

  ghost predicate Faithful(histogram: seq<Entry>, findings: seq<Finding>) {
    && UniqueIds(histogram)
    && (forall e :: e in histogram ==> Describes(e, findings))
    && (forall f :: f in findings && f.endpointId != "" ==> exists e :: e in histogram && e.endpointId == f.endpointId)
  }

  lemma OtherFinding(e: Entry, findings: seq<Finding>, f: Finding)
    requires Describes(e, findings) && f.endpointId != e.endpointId
    ensures Describes(e, findings + [f])
  {
    assert (findings + [f])[..|findings|] == findings;
    assert At(findings + [f], e.endpointId) == At(findings, e.endpointId) + [];
    assert At(findings, e.endpointId) + [] == At(findings, e.endpointId);
  }

  lemma {:induction false} NothingAt(findings: seq<Finding>, id: string)
    requires forall f :: f in findings ==> f.endpointId != id
    ensures At(findings, id) == []
  {
    if findings != [] {
      assert findings[|findings| - 1] in findings;
      NothingAt(findings[..|findings| - 1], id);
    }
  }

  lemma FaithfulNext(histogram: seq<Entry>, findings: seq<Finding>, f: Finding)
    requires Faithful(histogram, findings) && f.endpointId != ""
    ensures Faithful(Added(histogram, f.endpointId, Severity(f)), findings + [f])
  {
    var id, now := f.endpointId, Added(histogram, f.endpointId, Severity(f));
    AddedIds(histogram, id, Severity(f));
    forall e | e in now
      ensures Describes(e, findings + [f])
    {
      if e.endpointId == id {
        AddedEntry(histogram, id, Severity(f), e);
        if before :|
          before in histogram && before.endpointId == id && e == Entry(id, Bumped(before.counts, Severity(f))) {
          DescribedByMore(before, findings, f);
        } else {
          NothingAt(findings, id);
          DescribedByMore(Entry(id, []), findings, f);
        }
      } else {
        OtherFinding(e, findings, f);
      }
    }
    forall g | g in findings + [f] && g.endpointId != ""
      ensures exists e :: e in now && e.endpointId == g.endpointId
    {
      if g.endpointId != id {
        var e :| e in histogram && e.endpointId == g.endpointId;
        assert e in now;
      }
    }
  }

  lemma UnplacedFinding(histogram: seq<Entry>, findings: seq<Finding>, f: Finding)
    requires Faithful(histogram, findings) && f.endpointId == ""
    ensures Faithful(histogram, findings + [f])
  {
    forall e | e in histogram
      ensures Describes(e, findings + [f])
    {
      OtherFinding(e, findings, f);
    }
  }

  /** The histogram has one entry for each endpoint with findings and
      loses none of them: per severity, in total and in weight. */
  lemma {:induction false} HistogramIsFaithful(findings: seq<Finding>)
    ensures Faithful(Histogram(findings), findings)
  {
    if findings != [] {
      var before, f := findings[..|findings| - 1], findings[|findings| - 1];
      HistogramIsFaithful(before);
      assert findings == before + [f];
      if f.endpointId == "" {
        UnplacedFinding(Histogram(before), before, f);
      } else {
        FaithfulNext(Histogram(before), before, f);
      }
    }
  }

  function AllTotals(histogram: seq<Entry>): nat {
    if histogram == [] then 0 else Total(histogram[0].counts) + AllTotals(histogram[1..])
  }

  function AllWeighted(histogram: seq<Entry>): nat {
    if histogram == [] then 0 else Weighted(histogram[0].counts) + AllWeighted(histogram[1..])
  }

  /** The findings that have an endpoint. */
  function Placed(findings: seq<Finding>): seq<Finding> {
    if findings == [] then []
    else
      var last := findings[|findings| - 1];
      Placed(findings[..|findings| - 1]) + if last.endpointId != "" then [last] else []
  }

  lemma {:induction false} AddedTotals(histogram: seq<Entry>, id: string, severity: string)
    ensures AllTotals(Added(histogram, id, severity)) == AllTotals(histogram) + 1
    ensures AllWeighted(Added(histogram, id, severity)) == AllWeighted(histogram) + Weight(severity)
  {
    if histogram == [] {
      assert Added(histogram, id, severity)[1..] == [];
      BumpedExactly([], severity, "");
    } else if histogram[0].endpointId == id {
      assert Added(histogram, id, severity)[1..] == histogram[1..];
      BumpedExactly(histogram[0].counts, severity, "");
    } else {
      AddedTotals(histogram[1..], id, severity);
      assert Added(histogram, id, severity)[1..] == Added(histogram[1..], id, severity);
    }
  }

  /** Over all entries, open findings and weights add up to those of the findings that have an endpoint. */
  lemma {:induction false} TotalsAddUp(findings: seq<Finding>)
    ensures AllTotals(Histogram(findings)) == |Placed(findings)|
    ensures AllWeighted(Histogram(findings)) == Weights(Placed(findings))
  {
    if findings != [] {
      var before, f := findings[..|findings| - 1], findings[|findings| - 1];
      TotalsAddUp(before);
      if f.endpointId != "" {
        AddedTotals(Histogram(before), f.endpointId, Severity(f));
        assert (Placed(before) + [f])[..|Placed(before)|] == Placed(before);
      } else {
        assert Placed(findings) == Placed(before);
      }
    }
  }

  // ----- Rows, and the five at most risk -----

  datatype Row = Row(endpointId: string, riskScore: int, openFindings: nat, counts: seq<Count>)

  /** Conversion to an integer truncates towards zero. */
  function Truncated(x: real): int {
    if x >= 0.0 then x.Floor else -(-x).Floor
  }

  function Capped(n: int): int {
    if n < 100 then n else 100
  }

  /** `risks` holds the scores of the endpoints that are known. */
  function RowFor(risks: map<string, real>, e: Entry): Row {
    var own := if e.endpointId in risks then risks[e.endpointId] else 0.0;
    Row(e.endpointId, Capped(Truncated(own + Weighted(e.counts) as real)), Total(e.counts), e.counts)
  }

  function RowsFor(risks: map<string, real>, histogram: seq<Entry>): seq<Row> {
    seq(|histogram|, i requires 0 <= i < |histogram| => RowFor(risks, histogram[i]))
  }

  /** `a` ranks at least as high as `b`. */
  predicate Ranks(a: Row, b: Row) {
    a.riskScore > b.riskScore || (a.riskScore == b.riskScore && a.openFindings >= b.openFindings)
  }

  /** Behind the rows that it does not outrank, so that equal rows keep their order. */
  function Insert(row: Row, rows: seq<Row>): seq<Row> {
    if rows == [] || !Ranks(rows[0], row) then [row] + rows else [rows[0]] + Insert(row, rows[1..])
  }

  /** The library's stable sort, highest rank first. */
  function Ranked(rows: seq<Row>): seq<Row> {
    if rows == [] then [] else Insert(rows[|rows| - 1], Ranked(rows[..|rows| - 1]))
  }

  ghost predicate InOrder(rows: seq<Row>) {
    forall i, j :: 0 <= i < j < |rows| ==> Ranks(rows[i], rows[j])
  }

  lemma {:induction false} InsertKeepsOrder(row: Row, rows: seq<Row>)
    requires InOrder(rows)
    ensures InOrder(Insert(row, rows)) && multiset(Insert(row, rows)) == multiset(rows) + multiset{row}
  {
    if rows != [] && Ranks(rows[0], row) {
      var rest := rows[1..];
      assert rows == [rows[0]] + rest;
      InsertKeepsOrder(row, rest);
      var tail := Insert(row, rest);
      forall i | 0 <= i < |tail|
        ensures Ranks(rows[0], tail[i])
      {
        assert tail[i] in multiset(tail);
        if tail[i] != row {
          assert tail[i] in rest;
          var k :| 0 <= k < |rest| && rest[k] == tail[i];
          assert rows[k + 1] == tail[i];
        }
      }
    }
  }

  lemma {:induction false} RankedSorts(rows: seq<Row>)
    ensures InOrder(Ranked(rows)) && multiset(Ranked(rows)) == multiset(rows)
  {
    if rows != [] {
      var before := rows[..|rows| - 1];
      RankedSorts(before);
      InsertKeepsOrder(rows[|rows| - 1], Ranked(before));
      assert rows == before + [rows[|rows| - 1]];
    }
  }

  /** The rows with one score and one number of findings, in order. */
  function Ties(rows: seq<Row>, riskScore: int, openFindings: nat): seq<Row> {
    if rows == [] then []
    else
      (if rows[0].riskScore == riskScore && rows[0].openFindings == openFindings then [rows[0]] else [])
      + Ties(rows[1..], riskScore, openFindings)
  }

  lemma {:induction false} TiesConcat(xs: seq<Row>, ys: seq<Row>, risk: int, open: nat)
    ensures Ties(xs + ys, risk, open) == Ties(xs, risk, open) + Ties(ys, risk, open)
  {
    if xs == [] {
      assert xs + ys == ys;
    } else {
      TiesConcat(xs[1..], ys, risk, open);
      assert (xs + ys)[1..] == xs[1..] + ys && (xs + ys)[0] == xs[0];
      var own := if xs[0].riskScore == risk && xs[0].openFindings == open then [xs[0]] else [];
      Regroup(own, Ties(xs[1..], risk, open), Ties(ys, risk, open));
    }
  }

  lemma {:induction false} NoTiesBelow(row: Row, rows: seq<Row>)
    requires forall r :: r in rows ==> !Ranks(r, row)
    ensures Ties(rows, row.riskScore, row.openFindings) == []
  {
    if rows != [] {
      assert rows == [rows[0]] + rows[1..];
      assert rows[0] in rows;
      NoTiesBelow(row, rows[1..]);
      assert Ties(rows, row.riskScore, row.openFindings) == [] + Ties(rows[1..], row.riskScore, row.openFindings);
    }
  }

  lemma {:induction false} InsertKeepsTies(row: Row, rows: seq<Row>, risk: int, open: nat)
    requires InOrder(rows)
    ensures Ties(Insert(row, rows), risk, open) == Ties(rows + [row], risk, open)
  {
    TiesConcat(rows, [row], risk, open);
    assert [row][1..] == [];
    if rows == [] || !Ranks(rows[0], row) {
      forall r | r in rows
        ensures !Ranks(r, row)
      {
        var i :| 0 <= i < |rows| && rows[i] == r;
        assert i == 0 || Ranks(rows[0], rows[i]);
      }
      NoTiesBelow(row, rows);
      assert ([row] + rows)[1..] == rows;
    } else {
      assert InOrder(rows[1..]);
      InsertKeepsTies(row, rows[1..], risk, open);
      TiesConcat(rows[1..], [row], risk, open);
      assert Insert(row, rows)[1..] == Insert(row, rows[1..]);
    }
  }

  /** Rows that tie keep the order in which their endpoints first had a finding. */
  lemma {:induction false} RankedIsStable(rows: seq<Row>, risk: int, open: nat)
    ensures Ties(Ranked(rows), risk, open) == Ties(rows, risk, open)
  {
    if rows != [] {
      var before, last := rows[..|rows| - 1], rows[|rows| - 1];
      RankedIsStable(before, risk, open);
      RankedSorts(before);
      InsertKeepsTies(last, Ranked(before), risk, open);
      TiesConcat(Ranked(before), [last], risk, open);
      TiesConcat(before, [last], risk, open);
      assert rows == before + [last];
    }
  }

  const KEPT := 5

  method TopEndpointRisk(findings: seq<Finding>, risks: map<string, real>) returns (top: seq<Row>, all: seq<Row>)
    ensures all == RowsFor(risks, Histogram(findings))
    ensures top == Take(Ranked(all), KEPT)
  {
    var histogram: seq<Entry> := [];
    for i := 0 to |findings|
      invariant histogram == Histogram(findings[..i])
    {
      var f := findings[i];
      assert findings[..i + 1][..i] == findings[..i];
      if f.endpointId == "" { continue; }
      histogram := Added(histogram, f.endpointId, Severity(f));
    }
    assert findings[..|findings|] == findings;
    all := [];
    for i := 0 to |histogram|
      invariant all == RowsFor(risks, histogram[..i])
    {
      all := all + [RowFor(risks, histogram[i])];
    }
    assert histogram[..|histogram|] == histogram;
    top := Take(Ranked(all), KEPT);
  }

  lemma FirstDominate(ranked: seq<Row>, n: nat)
    requires InOrder(ranked) && n <= |ranked|
    ensures InOrder(ranked[..n]) && forall a, b :: a in ranked[..n] && b in ranked[n..] ==> Ranks(a, b)
  {
    forall a, b | a in ranked[..n] && b in ranked[n..]
      ensures Ranks(a, b)
    {
      var i :| 0 <= i < n && ranked[i] == a;
      var j :| n <= j < |ranked| && ranked[j] == b;
    }
  }

  /** The rows kept are in order, at most five, and rank at least as high as every row dropped. */
  lemma TopDominates(all: seq<Row>)
    ensures var top, rest := Take(Ranked(all), KEPT), Ranked(all)[|Take(Ranked(all), KEPT)|..];
            && |top| == (if |all| < 5 then |all| else 5) && multiset(top + rest) == multiset(all)
            && (forall i, j :: 0 <= i < j < |top| ==>
                  top[i].riskScore > top[j].riskScore
                  || (top[i].riskScore == top[j].riskScore && top[i].openFindings >= top[j].openFindings))
            && (forall a, b :: a in top && b in rest ==>
                  a.riskScore > b.riskScore || (a.riskScore == b.riskScore && a.openFindings >= b.openFindings))
  {
    var n := if |all| < KEPT then |all| else KEPT;
    RankedSorts(all);
    assert |multiset(Ranked(all))| == |multiset(all)|;
    assert Ranked(all)[..n] + Ranked(all)[n..] == Ranked(all);
    FirstDominate(Ranked(all), if |all| < KEPT then |all| else KEPT);
  }

  /** A row says what the findings at its endpoint say; its risk is the
      endpoint's own score plus their weights, truncated and capped. */
  ghost predicate SaysWhatFindingsSay(row: Row, findings: seq<Finding>, risks: map<string, real>) {
    var here := At(findings, row.endpointId);
    var own := if row.endpointId in risks then risks[row.endpointId] else 0.0;
    && here != [] && row.openFindings == |here|
    && IsScore(row.riskScore, own + (25 * Named(here, "CRITICAL") + 15 * Named(here, "HIGH")
                                     + 5 * Named(here, "MEDIUM") + Named(here, "LOW")) as real)
    && forall s :: s != "" ==>
         CountOf(row.counts, s) == Named(here, s) + if s == "INFO" then Named(here, "") else 0
  }

  /** From 100 on the score is 100; below, it is the number without its fraction. */
  predicate IsScore(score: int, x: real) {
    && (x >= 100.0 ==> score == 100)
    && (0.0 <= x < 100.0 ==> score as real <= x < score as real + 1.0)
    && (x < 0.0 ==> score as real - 1.0 < x <= score as real)
  }

  lemma CappedIsScore(x: real)
    ensures IsScore(Capped(Truncated(x)), x)
  {
  }

  lemma RowOfEntry(e: Entry, findings: seq<Finding>, risks: map<string, real>)
    requires Describes(e, findings)
    ensures SaysWhatFindingsSay(RowFor(risks, e), findings, risks)
  {
    var here := At(findings, e.endpointId);
    var own := if e.endpointId in risks then risks[e.endpointId] else 0.0;
    CappedIsScore(own + Weights(here) as real);
    WeightsExactly(here);
    forall s | s != ""
      ensures CountOf(e.counts, s) == Named(here, s) + if s == "INFO" then Named(here, "") else 0
    {
      OfSeverityExactly(here, s);
    }
  }

  /** One row for each endpoint with findings, and every row says what they say. */
  lemma RowsSayWhatFindingsSay(findings: seq<Finding>, risks: map<string, real>)
    ensures var rows := RowsFor(risks, Histogram(findings));
            && (forall i :: 0 <= i < |rows| ==> SaysWhatFindingsSay(rows[i], findings, risks))
            && (forall i, j :: 0 <= i < j < |rows| ==> rows[i].endpointId != rows[j].endpointId)
            && forall f :: f in findings && f.endpointId != "" ==>
              exists row :: row in rows && row.endpointId == f.endpointId
  {
    HistogramIsFaithful(findings);
    var histogram, rows := Histogram(findings), RowsFor(risks, Histogram(findings));
    forall i | 0 <= i < |rows|
      ensures SaysWhatFindingsSay(rows[i], findings, risks)
    {
      assert histogram[i] in histogram;
      RowOfEntry(histogram[i], findings, risks);
    }
    forall f | f in findings && f.endpointId != ""
      ensures exists row :: row in rows && row.endpointId == f.endpointId
    {
      var e :| e in histogram && e.endpointId == f.endpointId;
      var i :| 0 <= i < |histogram| && histogram[i] == e;
      assert rows[i] in rows;
    }
  }

  // ----- The risk score and the SLA counts -----

  method RiskScore(findings: seq<Finding>, violations: nat) returns (score: int)
    ensures var points := 5 * violations + 25 * Named(findings, "CRITICAL") + 15 * Named(findings, "HIGH")
                          + 5 * Named(findings, "MEDIUM") + Named(findings, "LOW");
            score == if points < 100 then points else 100
  {
    WeightsExactly(findings);
    var raw := violations * 5;
    for i := 0 to |findings|
      invariant raw == 5 * violations + Weights(findings[..i])
    {
      assert findings[..i + 1][..i] == findings[..i];
      raw := raw + Weight(Severity(findings[i]));
    }
    assert findings[..|findings|] == findings;
    score := Capped(raw);
  }

  const WEEK := 7 * 24 * 60 * 60

  datatype Sla = Overdue | DueSoon | OnTrack | NoSla

  function SlaOf(f: Finding, now: int): Sla {
    if f.slaDue.None? then NoSla
    else if f.slaDue.value < now then Overdue
    else if f.slaDue.value <= now + WEEK then DueSoon
    else OnTrack
  }

  function OfSla(findings: seq<Finding>, now: int, sla: Sla): nat {
    if findings == [] then 0
    else OfSla(findings[..|findings| - 1], now, sla) + if SlaOf(findings[|findings| - 1], now) == sla then 1 else 0
  }

  lemma {:induction false} OfSlaExactly(findings: seq<Finding>, now: int, sla: Sla, p: Finding -> bool)
    requires forall f :: p(f) <==> SlaOf(f, now) == sla
    ensures OfSla(findings, now, sla) == HowMany(findings, p)
  {
    if findings != [] {
      HowManyNext(findings, p);
      OfSlaExactly(findings[..|findings| - 1], now, sla, p);
    }
  }

  /** Every finding is counted once: as overdue before its due time has come, as due soon for a week before. */
  method SlaCounts(findings: seq<Finding>, now: int) returns (overdue: nat, dueSoon: nat, onTrack: nat, noSla: nat)
    ensures overdue == OfSla(findings, now, Overdue) && dueSoon == OfSla(findings, now, DueSoon)
    ensures onTrack == OfSla(findings, now, OnTrack) && noSla == OfSla(findings, now, NoSla)
    ensures overdue + dueSoon + onTrack + noSla == |findings|
    ensures overdue == HowMany(findings, (f: Finding) => f.slaDue.Some? && f.slaDue.value < now)
    ensures dueSoon == HowMany(findings, (f: Finding) => f.slaDue.Some? && now <= f.slaDue.value <= now + 604800)
    ensures noSla == HowMany(findings, (f: Finding) => f.slaDue.None?)
  {
    overdue, dueSoon, onTrack, noSla := 0, 0, 0, 0;
    for i := 0 to |findings|
      invariant overdue == OfSla(findings[..i], now, Overdue) && dueSoon == OfSla(findings[..i], now, DueSoon)
      invariant onTrack == OfSla(findings[..i], now, OnTrack) && noSla == OfSla(findings[..i], now, NoSla)
      invariant overdue + dueSoon + onTrack + noSla == i
    {
      var f := findings[i];
      assert findings[..i + 1][..i] == findings[..i];
      if f.slaDue.None? {
        noSla := noSla + 1;
        continue;
      }
      var due := f.slaDue.value;
      if due < now {
        overdue := overdue + 1;
      } else if due <= now + WEEK {
        dueSoon := dueSoon + 1;
      } else {
        onTrack := onTrack + 1;
      }
    }
    assert findings[..|findings|] == findings;
    OfSlaExactly(findings, now, Overdue, (f: Finding) => f.slaDue.Some? && f.slaDue.value < now);
    OfSlaExactly(findings, now, DueSoon, (f: Finding) => f.slaDue.Some? && now <= f.slaDue.value <= now + 604800);
    OfSlaExactly(findings, now, NoSla, (f: Finding) => f.slaDue.None?);
  }
}
