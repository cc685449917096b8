/** The release gate's policy: packs, query overrides, the order of strictness, and its enforcement. */
module GatePolicy {
  import opened Strings
  import opened Sorting
  import opened Lists

  datatype Flag =
    | FailOnErrors
    | FailOnNoExecution
    | FailOnUnauthenticated
    | EvidenceIntegrity
    | EvidenceCompleteness
    | SafetyPolicies
    | RetestSupport
    | LlmJudgeValidation
    | AuthorizationBoundaryCoverage
    | EngineArtifactAccountability
    | ConfirmatoryRetests
    | ConfirmedFindings
    | TicketedBlockingVulnerabilities

  /** The flags in the order in which queries and override reasons list them. */
  const ALL_FLAGS: seq<Flag> := [
    FailOnErrors, FailOnNoExecution, FailOnUnauthenticated, EvidenceIntegrity, EvidenceCompleteness, SafetyPolicies,
    RetestSupport, LlmJudgeValidation, AuthorizationBoundaryCoverage, EngineArtifactAccountability, ConfirmatoryRetests,
    ConfirmedFindings, TicketedBlockingVulnerabilities]

  datatype Policy = Policy(name: string, failOn: string, flags: map<Flag, bool>)

  predicate Total(flags: map<Flag, bool>) {
    forall f :: f in ALL_FLAGS ==> f in flags
  }

  /** A lookup; a flag that is nowhere set counts as off. */
  function On(p: Policy, f: Flag): bool {
    f in p.flags && p.flags[f]
  }

  // ----- Blocking severities -----

  const CRITICAL := "CRITICAL"
  const HIGH := "HIGH"
  const BOTH := CRITICAL + [','] + HIGH

  function Split(text: string): seq<string>
    decreases |text|
  {
    match SplitFirst(text, ',')
    case None => [text]
    case Some((a, b)) => [a] + Split(b)
  }

  function Severities(pieces: seq<string>): (names: set<string>)
  {
    if pieces == [] then {}
    else
      var name := Upper(Strip(pieces[0]));
      (if Strip(pieces[0]) == "" then {} else {name}) + Severities(pieces[1..])
  }

  /** The severities that block: an empty list means the default pair, the word none means no severity. */
  function ParseFailOn(text: string): set<string> {
    var names := Severities(Split(text));
    if names == {"NONE"} then {} else if names == {} then {CRITICAL, HIGH} else names
  }

  function Joined(pieces: seq<string>): string
    requires pieces != []
  {
    if |pieces| == 1 then pieces[0] else pieces[0] + "," + Joined(pieces[1..])
  }

  /** Splitting cuts at every comma and nowhere else. */
  lemma {:induction false} SplitExactly(text: string)
    ensures Split(text) != [] && Joined(Split(text)) == text
    ensures forall piece :: piece in Split(text) ==> ',' !in piece
    decreases |text|
  {
    if ',' in text {
      var (a, b) := SplitFirst(text, ',').value;
      SplitExactly(b);
      assert Split(text)[1..] == Split(b);
    }
  }

  /** A piece of the list that is not blank names a severity, in upper case and without its outer blanks. */
  ghost predicate Names(text: string, name: string) {
    exists piece :: piece in Split(text) && Strip(piece) != "" && name == Upper(Strip(piece))
  }

  lemma {:induction false} SeveritiesExactly(pieces: seq<string>, name: string)
    ensures name in Severities(pieces) <==>
              exists piece :: piece in pieces && Strip(piece) != "" && name == Upper(Strip(piece))
  {
    if pieces != [] {
      assert pieces == [pieces[0]] + pieces[1..];
      SeveritiesExactly(pieces[1..], name);
    }
  }

  /** The severities that block are those named; naming none of them means the default pair, and naming just the word
      none means no severity at all. */
  lemma FailOnExactly(text: string)
    ensures (forall name :: Names(text, name) <==> name == "NONE") ==> ParseFailOn(text) == {}
    ensures (forall name :: !Names(text, name)) ==> ParseFailOn(text) == {"CRITICAL", "HIGH"}
    ensures (exists name :: Names(text, name) && name != "NONE") ==>
              forall name :: name in ParseFailOn(text) <==> Names(text, name)
  {
    var names := Severities(Split(text));
    forall name
      ensures name in names <==> Names(text, name)
    {
      SeveritiesExactly(Split(text), name);
    }
    if forall name :: Names(text, name) <==> name == "NONE" { assert names == {"NONE"}; }
    if forall name :: !Names(text, name) { assert names == {}; }
  }

  // ----- Packs -----

  function AllBut(off: set<Flag>): map<Flag, bool> {
    map f | f in ALL_FLAGS :: f !in off
  }

  const ALWAYS_OFF: set<Flag> := {ConfirmedFindings, LlmJudgeValidation}

  const PACKS: map<string, Policy> := map[
    "strict" := Policy("strict", BOTH, AllBut(ALWAYS_OFF)),
    "advisory" := Policy("advisory", "CRITICAL", AllBut(ALWAYS_OFF + {ConfirmatoryRetests})),
    "evidence-only" := Policy("evidence-only", "none", AllBut(ALWAYS_OFF + {ConfirmatoryRetests})),
    "llm-strict" := Policy("llm-strict", BOTH, AllBut({ConfirmedFindings}))]

  function PackKey(name: string): string {
    if name == "" then "strict" else Lower(Strip(name))
  }

  function PackNamed(name: string): Option<Policy> {
    if PackKey(name) in PACKS then Some(PACKS[PackKey(name)]) else None
  }

  // ----- Resolution: a parameter given in the query replaces the pack's value -----

  datatype Query = Query(failOn: Option<string>, flags: map<Flag, bool>)

  /** The policy in force: the pack's values where the query is silent. */
  function EffectivePolicy(packName: string, query: Query): Option<Policy> {
    match PackNamed(packName)
    case None => None
    case Some(pack) =>
      Some(Policy(
        pack.name, if query.failOn.Some? then query.failOn.value else pack.failOn,
        map f | f in ALL_FLAGS :: if f in query.flags then query.flags[f] else On(pack, f)))
  }

  lemma SameFlags(flags: map<Flag, bool>, pack: Policy, overrides: map<Flag, bool>)
    requires Total(flags)
    requires forall f :: f in flags ==> flags[f] == if f in overrides then overrides[f] else On(pack, f)
    ensures flags == map f | f in ALL_FLAGS :: if f in overrides then overrides[f] else On(pack, f)
  {
    forall f: Flag
      ensures f in ALL_FLAGS
    {
      EveryFlagListed(f);
    }
  }

  method ResolveGatePolicy(packName: string, query: Query) returns (effective: Option<Policy>)
    ensures effective == EffectivePolicy(packName, query)
  {
    var pack := PackNamed(packName);
    if pack.None? { return None; }
    PacksAreTotal(packName);
    var flags := OverrideFlags(pack.value, query.flags);
    flags := SetDefault(SetDefault(flags, LlmJudgeValidation, false), AuthorizationBoundaryCoverage, false);
    flags := SetDefault(SetDefault(flags, EngineArtifactAccountability, true), TicketedBlockingVulnerabilities, true);
    var failOn := if query.failOn.Some? then query.failOn.value else pack.value.failOn;
    effective := Some(Policy(pack.value.name, failOn, flags));
    SameFlags(flags, pack.value, query.flags);
  }

  /** The loop over the flags: those named in the query replace the pack's. */
  method OverrideFlags(pack: Policy, overrides: map<Flag, bool>) returns (flags: map<Flag, bool>)
    requires Total(pack.flags)
    ensures Total(flags)
    ensures forall f :: f in flags ==> flags[f] == if f in overrides then overrides[f] else On(pack, f)
  {
    flags := pack.flags;
    for i := 0 to |ALL_FLAGS|
      invariant Total(flags)
      invariant forall f :: f in flags ==>
        flags[f] == if f in ALL_FLAGS[..i] && f in overrides then overrides[f] else On(pack, f)
    {
      var flag := ALL_FLAGS[i];
      NextPrefix(ALL_FLAGS, i);
      if flag in overrides { flags := flags[flag := overrides[flag]]; }
    }
    assert ALL_FLAGS[..|ALL_FLAGS|] == ALL_FLAGS;
    forall f: Flag
      ensures f in ALL_FLAGS
    {
      EveryFlagListed(f);
    }
  }

  function SetDefault(flags: map<Flag, bool>, f: Flag, value: bool): map<Flag, bool> {
    if f in flags then flags else flags[f := value]
  }

  lemma EveryFlagListed(f: Flag)
    ensures f in ALL_FLAGS
  {
    assert ALL_FLAGS[0] == FailOnErrors && ALL_FLAGS[1] == FailOnNoExecution && ALL_FLAGS[2] == FailOnUnauthenticated;
    assert ALL_FLAGS[3] == EvidenceIntegrity && ALL_FLAGS[4] == EvidenceCompleteness && ALL_FLAGS[5] == SafetyPolicies;
    assert ALL_FLAGS[6] == RetestSupport && ALL_FLAGS[7] == LlmJudgeValidation;
    assert ALL_FLAGS[8] == AuthorizationBoundaryCoverage && ALL_FLAGS[9] == EngineArtifactAccountability;
    assert ALL_FLAGS[10] == ConfirmatoryRetests && ALL_FLAGS[11] == ConfirmedFindings;
    assert ALL_FLAGS[12] == TicketedBlockingVulnerabilities;
  }

  lemma PacksAreTotal(name: string)
    ensures PackNamed(name).Some? ==> Total(PackNamed(name).value.flags)
  {
  }

  // ----- The strict policy and the reasons a policy falls short of it -----

  const STRICT_SEVERITIES: set<string> := {CRITICAL, HIGH}

  /** Whether a value of this flag is weaker than the strict policy's; confirmed-only gating is weaker when on. */
  predicate Weakens(f: Flag, value: bool) {
    match f
    case ConfirmedFindings => value
    case LlmJudgeValidation => false
    case _ => !value
  }

  datatype Reason = MissingSeverities(missing: seq<string>) | WeakFlag(flag: Flag)

  function MissingFrom(present: set<string>): seq<string> {
    SortUnique((if HIGH in present then [] else [HIGH]) + (if CRITICAL in present then [] else [CRITICAL]))
  }

  function WeakFlags(p: Policy, flags: seq<Flag>): seq<Reason> {
    if flags == [] then []
    else (if Weakens(flags[0], On(p, flags[0])) then [WeakFlag(flags[0])] else []) + WeakFlags(p, flags[1..])
  }

  function OverrideReasons(p: Policy): seq<Reason> {
    var missing := MissingFrom(ParseFailOn(p.failOn));
    (if missing == [] then [] else [MissingSeverities(missing)]) + WeakFlags(p, ALL_FLAGS)
  }

  /** `q` blocks everything `p` blocks; `ConfirmedFindings` counts the other way round. */
  ghost predicate AtLeast(q: Policy, p: Policy) {
    && ParseFailOn(p.failOn) <= ParseFailOn(q.failOn)
    && forall f :: if f == ConfirmedFindings then On(q, f) ==> On(p, f) else On(p, f) ==> On(q, f)
  }

  const STRICT: Policy := Policy("strict", BOTH, AllBut(ALWAYS_OFF))

  lemma {:induction false} WeakFlagsListed(p: Policy, flags: seq<Flag>, f: Flag)
    ensures WeakFlag(f) in WeakFlags(p, flags) <==> f in flags && Weakens(f, On(p, f))
    ensures forall r :: r in WeakFlags(p, flags) ==> r.WeakFlag?
  {
    if flags != [] {
      WeakFlagsListed(p, flags[1..], f);
      assert flags == [flags[0]] + flags[1..];
    }
  }

  /** Each reason is reported exactly when its field is weaker than strict. */
  lemma ReasonsExactly(p: Policy)
    ensures forall f :: WeakFlag(f) in OverrideReasons(p) <==> Weakens(f, On(p, f))
    ensures forall m :: MissingSeverities(m) in OverrideReasons(p) ==>
              m != [] && StrictlySorted(m) && forall s :: s in m <==> s in STRICT_SEVERITIES - ParseFailOn(p.failOn)
    ensures (exists m :: MissingSeverities(m) in OverrideReasons(p)) <==> !(STRICT_SEVERITIES <= ParseFailOn(p.failOn))
  {
    var present := ParseFailOn(p.failOn);
    var listed := (if HIGH in present then [] else [HIGH]) + (if CRITICAL in present then [] else [CRITICAL]);
    SortUniqueSorts(listed);
    assert forall s :: s in listed <==> s in STRICT_SEVERITIES - present;
    var missing := MissingFrom(present);
    if !(STRICT_SEVERITIES <= present) {
      var s := if HIGH in present then CRITICAL else HIGH;
      assert s in missing;
      assert MissingSeverities(missing) in OverrideReasons(p);
    }
    forall f
      ensures WeakFlag(f) in OverrideReasons(p) <==> Weakens(f, On(p, f))
    {
      EveryFlagListed(f);
      WeakFlagsListed(p, ALL_FLAGS, f);
    }
    WeakFlagsListed(p, ALL_FLAGS, FailOnErrors);
  }

  lemma PlainName(name: string)
    requires name != "" && forall i :: 0 <= i < |name| ==> 'A' <= name[i] <= 'Z'
    ensures Upper(Strip(name)) == name && Strip(name) == name
    ensures Split(name) == [name]
  {
    assert StripLeft(name) == name && StripRight(name) == name;
  }

  lemma PlainPair(a: string, b: string)
    requires a != "" && forall i :: 0 <= i < |a| ==> 'A' <= a[i] <= 'Z'
    requires b != "" && forall i :: 0 <= i < |b| ==> 'A' <= b[i] <= 'Z'
    ensures Severities(Split(a + [','] + b)) == {a, b}
  {
    SplitFirstUnique(a, b, ',');
    PlainName(a);
    PlainName(b);
    assert Split(a + [','] + b) == [a] + [b];
    assert ([a] + [b])[1..] == [b] && [b][1..] == [];
    assert Severities([b]) == {b} + Severities([]);
  }

  lemma StrictSeverities()
    ensures ParseFailOn(BOTH) == STRICT_SEVERITIES
  {
    PlainPair(CRITICAL, HIGH);
    assert |HIGH| == 4 && |"NONE"| == 4 && HIGH[0] != "NONE"[0];
  }

  /** No reason is reported exactly when the policy is at or above the strict policy in the order. */
  lemma NoReasonExactlyAtLeastStrict(p: Policy)
    ensures OverrideReasons(p) == [] <==> AtLeast(p, STRICT)
  {
    ReasonsExactly(p);
    StrictIsNotWeak(p);
    var reasons := OverrideReasons(p);
    if reasons != [] {
      assert reasons[0] in reasons;
      if reasons[0].MissingSeverities? {
        assert reasons[0] == MissingSeverities(reasons[0].missing);
      } else {
        assert reasons[0] == WeakFlag(reasons[0].flag);
      }
    }
  }

  lemma StrictFlags(f: Flag)
    ensures On(STRICT, f) <==> f != ConfirmedFindings && f != LlmJudgeValidation
  {
    EveryFlagListed(f);
  }

  /** The strict order in terms of the single fields. */
  lemma StrictIsNotWeak(p: Policy)
    ensures AtLeast(p, STRICT) <==> STRICT_SEVERITIES <= ParseFailOn(p.failOn) && forall f :: !Weakens(f, On(p, f))
  {
    StrictSeverities();
    assert ParseFailOn(STRICT.failOn) == STRICT_SEVERITIES;
    forall f
      ensures Weakens(f, On(p, f)) <==>
                !(if f == ConfirmedFindings then On(p, f) ==> On(STRICT, f) else On(STRICT, f) ==> On(p, f))
    {
      StrictFlags(f);
    }
  }

  /** Strengthening any field never adds a reason. */
  lemma StrongerHasFewerReasons(p: Policy, q: Policy)
    requires AtLeast(q, p)
    ensures forall f :: WeakFlag(f) in OverrideReasons(q) ==> WeakFlag(f) in OverrideReasons(p)
    ensures forall m :: MissingSeverities(m) in OverrideReasons(q) ==>
              exists n :: MissingSeverities(n) in OverrideReasons(p) && forall s :: s in m ==> s in n
  {
    ReasonsExactly(p);
    ReasonsExactly(q);
    forall m | MissingSeverities(m) in OverrideReasons(q)
      ensures exists n :: MissingSeverities(n) in OverrideReasons(p) && forall s :: s in m ==> s in n
    {
      assert m[0] in m;
      var n :| MissingSeverities(n) in OverrideReasons(p);
    }
  }

  // ----- Enforcement -----

  datatype Enforcement =
    | Proceed(strictMode: bool, reasons: seq<Reason>, overridden: bool)
    | Refused(statusCode: nat, reasons: seq<Reason>)

  function EnforceGatePolicy(p: Policy, allowOverrides: bool, mayTrigger: bool): Enforcement {
    var reasons := OverrideReasons(p);
    if reasons == [] then Proceed(true, [], false)
    else if !allowOverrides then Refused(400, reasons)
    else if !mayTrigger then Refused(403, reasons)
    else Proceed(false, reasons, true)
  }

  /** A policy is evaluated in strict mode exactly at or above strict, and below it only when overrides are asked for by
      a caller who may trigger runs; not asking is a bad request, asking without that permission is forbidden. */
  lemma EnforcedExactly(p: Policy, allowOverrides: bool, mayTrigger: bool)
    ensures var e := EnforceGatePolicy(p, allowOverrides, mayTrigger);
            && (e.Proceed? <==> AtLeast(p, STRICT) || (allowOverrides && mayTrigger))
            && (e.Proceed? && e.strictMode <==> AtLeast(p, STRICT))
            && (e.Refused? && e.statusCode == 400 <==> !AtLeast(p, STRICT) && !allowOverrides)
            && (e.Refused? && e.statusCode == 403 <==> !AtLeast(p, STRICT) && allowOverrides && !mayTrigger)
            && e.reasons == OverrideReasons(p) && (e.Proceed? ==> (e.overridden <==> e.reasons != []))
  {
    NoReasonExactlyAtLeastStrict(p);
  }

  // ----- Which packs and queries are strict -----

  const STRICT_PACKS: set<string> := {"strict", "llm-strict"}

  /** What a query has to leave alone, and what it has to repair: its own severities and flags must not be weaker than
      strict, and the two weaker packs need both given, the severities and the confirmatory retests. */
  predicate QueryKeepsStrict(packName: string, query: Query) {
    && (query.failOn.Some? ==> STRICT_SEVERITIES <= ParseFailOn(query.failOn.value))
    && (forall f :: f in query.flags ==> !Weakens(f, query.flags[f]))
    && (PackKey(packName) !in STRICT_PACKS ==> query.failOn.Some? && ConfirmatoryRetests in query.flags)
  }

  function Off(judged: bool, lax: bool): set<Flag> {
    (if judged then {ConfirmedFindings} else ALWAYS_OFF) + if lax then {ConfirmatoryRetests} else {}
  }

  lemma WeakensWhenLax(p: Policy, judged: bool, lax: bool, f: Flag)
    requires p.flags == AllBut(Off(judged, lax))
    ensures Weakens(f, On(p, f)) <==> f == ConfirmatoryRetests && lax
  {
    EveryFlagListed(f);
  }

  lemma PackOff(key: string)
    requires key in PACKS
    ensures PACKS[key].flags == AllBut(Off(key == "llm-strict", key !in STRICT_PACKS))
  {
  }

  /** The strict pack and its judged variant weaken no flag; the
      others weaken the confirmatory retests and nothing else. */
  lemma PackFlags(key: string, f: Flag)
    requires key in PACKS
    ensures Weakens(f, On(PACKS[key], f)) <==> f == ConfirmatoryRetests && key !in STRICT_PACKS
  {
    PackOff(key);
    WeakensWhenLax(PACKS[key], key == "llm-strict", key !in STRICT_PACKS, f);
  }

  lemma PackFailOn(key: string)
    requires key in PACKS
    ensures PACKS[key].failOn in {BOTH, CRITICAL, "none"}
    ensures PACKS[key].failOn == BOTH <==> key in STRICT_PACKS
  {
    assert |BOTH| == 13 && |CRITICAL| == 8 && |"none"| == 4;
    assert |"strict"| == 6 && |"advisory"| == 8 && |"evidence-only"| == 13 && |"llm-strict"| == 10;
  }

  lemma WeakSeverities()
    ensures !(STRICT_SEVERITIES <= ParseFailOn("CRITICAL")) && !(STRICT_SEVERITIES <= ParseFailOn("none"))
  {
    CriticalMeansCritical();
    NoneMeansNone();
    assert |CRITICAL| == 8 && |HIGH| == 4;
  }

  lemma CriticalMeansCritical()
    ensures ParseFailOn(CRITICAL) == {CRITICAL}
  {
    PlainName(CRITICAL);
    assert [CRITICAL][1..] == [] && Severities([CRITICAL]) == {CRITICAL} + {};
    assert |CRITICAL| == 8 && |"NONE"| == 4;
  }

  lemma NoneMeansNone()
    ensures ParseFailOn("none") == {}
  {
    assert StripLeft("none") == "none" && StripRight("none") == "none";
    assert Upper("none") == "NONE";
    assert SplitFirst("none", ',').None?;
    assert Split("none") == ["none"] && ["none"][1..] == [];
    assert Severities(["none"]) == {"NONE"} + {};
  }

  lemma PackSeverities(key: string)
    requires key in PACKS
    ensures STRICT_SEVERITIES <= ParseFailOn(PACKS[key].failOn) <==> key in STRICT_PACKS
  {
    StrictSeverities();
    WeakSeverities();
    PackFailOn(key);
  }

  /** For every pack that is known and every query, the policy in force
      is at or above strict exactly when the query keeps it so. */
  lemma StrictExactly(packName: string, query: Query)
    requires PackNamed(packName).Some?
    ensures AtLeast(EffectivePolicy(packName, query).value, STRICT) <==> QueryKeepsStrict(packName, query)
  {
    var pack, p := PackNamed(packName).value, EffectivePolicy(packName, query).value;
    StrictIsNotWeak(p);
    PackSeverities(PackKey(packName));
    forall f: Flag
      ensures Weakens(f, On(p, f)) <==>
                if f in query.flags then Weakens(f, query.flags[f])
                else f == ConfirmatoryRetests && PackKey(packName) !in STRICT_PACKS
    {
      EveryFlagListed(f);
      PackFlags(PackKey(packName), f);
    }
  }

  /** For every pack and query, evaluation goes on exactly when the pack is known and the query
      keeps it at or above strict, or overrides are asked for by a caller who may trigger runs. */
  lemma EvaluationGoesOnExactly(packName: string, query: Query, allowOverrides: bool, mayTrigger: bool)
    ensures var effective := EffectivePolicy(packName, query);
            (effective.Some? && EnforceGatePolicy(effective.value, allowOverrides, mayTrigger).Proceed?) <==>
              PackNamed(packName).Some? && (QueryKeepsStrict(packName, query) || (allowOverrides && mayTrigger))
  {
    if PackNamed(packName).Some? {
      StrictExactly(packName, query);
      EnforcedExactly(EffectivePolicy(packName, query).value, allowOverrides, mayTrigger);
    }
  }

  /** The packs there are: a query names one up to case and outer blanks, no name means the strict one, and what a pack
      asks for besides is the severities that block and the flags that it leaves out. */
  lemma PacksExactly(name: string)
    ensures PackNamed(name).Some? <==>
              name == "" || Lower(Strip(name)) in {"strict", "advisory", "evidence-only", "llm-strict"}
    ensures PackNamed(name).Some? ==>
              IsPack(PackNamed(name).value, if name == "" then "strict" else Lower(Strip(name)))
  {
    if PackNamed(name).Some? { PackIs(PackKey(name)); }
  }

  ghost predicate IsPack(pack: Policy, key: string) {
    && pack.name == key
    && ParseFailOn(pack.failOn) == (if key == "advisory" then {"CRITICAL"}
                                    else if key == "evidence-only" then {} else {"CRITICAL", "HIGH"})
    && forall f :: On(pack, f) <==>
         && f != ConfirmedFindings && (f == LlmJudgeValidation ==> key == "llm-strict")
         && (f == ConfirmatoryRetests ==> key in {"strict", "llm-strict"})
  }

  lemma PackIs(key: string)
    requires key in PACKS
    ensures IsPack(PACKS[key], key)
  {
    PackSeverityNames(key);
    forall f
      ensures On(PACKS[key], f) <==> f !in Off(key == "llm-strict", key !in STRICT_PACKS)
    {
      PackOff(key);
      EveryFlagListed(f);
    }
  }

  lemma PackTexts(key: string)
    requires key in PACKS
    ensures PACKS[key].name == key
    ensures PACKS[key].failOn
         == if key == "advisory" then CRITICAL else if key == "evidence-only" then "none" else BOTH
  {
    assert |"strict"| == 6 && |"advisory"| == 8 && |"evidence-only"| == 13 && |"llm-strict"| == 10;
  }

  lemma PackSeverityNames(key: string)
    requires key in PACKS
    ensures ParseFailOn(PACKS[key].failOn) == (if key == "advisory" then {"CRITICAL"}
                                               else if key == "evidence-only" then {} else {"CRITICAL", "HIGH"})
    ensures PACKS[key].name == key
  {
    PackTexts(key);
    if key == "advisory" {
      CriticalMeansCritical();
    } else if key == "evidence-only" {
      NoneMeansNone();
    } else {
      StrictSeverities();
    }
  }

  /** Taken as they are, exactly the two strict packs pass without an override. */
  lemma PacksThatAreStrict(key: string)
    requires key in PACKS
    ensures AtLeast(PACKS[key], STRICT) <==> key in STRICT_PACKS
  {
    StrictIsNotWeak(PACKS[key]);
    PackSeverities(key);
    forall f: Flag
      ensures Weakens(f, On(PACKS[key], f)) <==> f == ConfirmatoryRetests && key !in STRICT_PACKS
    {
      PackFlags(key, f);
    }
  }
}
