/** Account settings: the recursive merge of patches, and its layering over defaults. */
module SettingsMerge {
  import opened Json
  import opened Strings

  const EMPTY: Value := Obj(map[])

  /** `b` laid over `a`: dicts merge key by key, anything else is replaced. */
  function Over(a: Value, b: Value): Value
    decreases b
  {
    if a.Obj? && b.Obj? then
      Obj(map k | k in a.fields.Keys + b.fields.Keys ::
        if k !in b.fields then a.fields[k]
        else if k !in a.fields then b.fields[k]
        else Over(a.fields[k], b.fields[k]))
    else b
  }

  /** The recursion with a local copy that the loop fills in. */
  method DeepMerge(base: Value, patch: Value) returns (merged: Value)
    requires base.Obj? && patch.Obj?
    ensures merged == Over(base, patch)
    decreases patch
  {
    var copy := base.fields;
    var todo := patch.fields.Keys;
    while todo != {}
      invariant todo <= patch.fields.Keys
      invariant copy.Keys == base.fields.Keys + (patch.fields.Keys - todo)
      invariant forall k :: k in base.fields && (k !in patch.fields || k in todo) ==> copy[k] == base.fields[k]
      invariant forall k :: k in patch.fields && k !in todo ==>
        copy[k] == if k in base.fields then Over(base.fields[k], patch.fields[k]) else patch.fields[k]
    {
      var key :| key in todo;
      var value := patch.fields[key];
      if value.Obj? && key in copy && copy[key].Obj? {
        var inner := DeepMerge(copy[key], value);
        copy := copy[key := inner];
      } else {
        copy := copy[key := value];
      }
      todo := todo - {key};
    }
    merged := Obj(copy);
  }

  // ----- Laws of the merge -----

  /** Everything in `a` is overwritten by `c`: each of its keys is in `c`, and so on where both have dicts. */
  predicate Absorbed(a: Value, c: Value)
    decreases c
  {
    a.Obj? && c.Obj? ==> forall k :: k in a.fields ==> k in c.fields && Absorbed(a.fields[k], c.fields[k])
  }

  lemma {:induction false} AbsorbedExactly(a: Value, c: Value)
    ensures Over(a, c) == c <==> Absorbed(a, c)
    decreases c
  {
    if a.Obj? && c.Obj? {
      var whole := Over(a, c);
      forall k | k in a.fields && k in c.fields
        ensures whole.fields[k] == c.fields[k] <==> Absorbed(a.fields[k], c.fields[k])
      {
        AbsorbedExactly(a.fields[k], c.fields[k]);
      }
      if Absorbed(a, c) {
        assert whole.fields == c.fields;
      } else {
        var k :| k in a.fields && !(k in c.fields && Absorbed(a.fields[k], c.fields[k]));
        assert k in whole.fields;
      }
    }
  }

  /** The two groupings of three layers agree: wherever a dict is replaced by something else and that by a dict again,
      the last dict overwrites all of the first. */
  predicate Associates(a: Value, b: Value, c: Value)
    decreases c
  {
    if !a.Obj? || !c.Obj? then true
    else if !b.Obj? then Absorbed(a, c)
    else forall k :: k in a.fields && k in b.fields && k in c.fields ==>
      Associates(a.fields[k], b.fields[k], c.fields[k])
  }

  /** Associativity holds exactly under that condition. */
  lemma {:induction false} AssociativeExactly(a: Value, b: Value, c: Value)
    ensures Over(Over(a, b), c) == Over(a, Over(b, c)) <==> Associates(a, b, c)
    decreases c
  {
    if a.Obj? && c.Obj? {
      if b.Obj? {
        MergeKeys(a, b, c);
      } else {
        AbsorbedExactly(a, c);
      }
    }
  }

  lemma {:induction false} MergeKeys(a: Value, b: Value, c: Value)
    requires a.Obj? && b.Obj? && c.Obj?
    ensures Over(Over(a, b), c) == Over(a, Over(b, c)) <==> Associates(a, b, c)
    decreases c, 0
  {
    var left, right := Over(Over(a, b), c), Over(a, Over(b, c));
    assert left.fields.Keys == right.fields.Keys;
    forall k | k in left.fields
      ensures left.fields[k] == right.fields[k] <==>
                (k in a.fields && k in b.fields && k in c.fields ==> Associates(a.fields[k], b.fields[k], c.fields[k]))
    {
      if k in a.fields && k in b.fields && k in c.fields {
        AssociativeExactly(a.fields[k], b.fields[k], c.fields[k]);
      }
    }
    if Associates(a, b, c) {
      assert left.fields == right.fields;
    } else {
      var k :| k in a.fields && k in b.fields && k in c.fields && !Associates(a.fields[k], b.fields[k], c.fields[k]);
      assert left.fields[k] != right.fields[k];
    }
  }

  /** No path holds a dict in `a`, something else in `b` and a dict in `c`. */
  predicate NeverReplaced(a: Value, b: Value, c: Value)
    decreases c
  {
    a.Obj? && c.Obj? ==>
      b.Obj? && forall k :: k in a.fields && k in b.fields && k in c.fields ==>
        NeverReplaced(a.fields[k], b.fields[k], c.fields[k])
  }

  lemma {:induction false} NeverReplacedAssociates(a: Value, b: Value, c: Value)
    requires NeverReplaced(a, b, c)
    ensures Associates(a, b, c)
    decreases c
  {
    if a.Obj? && b.Obj? && c.Obj? {
      forall k | k in a.fields && k in b.fields && k in c.fields
        ensures Associates(a.fields[k], b.fields[k], c.fields[k])
      {
        NeverReplacedAssociates(a.fields[k], b.fields[k], c.fields[k]);
      }
    }
  }

  /** A dict, then null, then a dict: what the first dict held comes back in one grouping only. */
  lemma AssociativityCanFail()
    ensures var a, b, c := Obj(map["x" := Obj(map["y" := Num(1)])]), Obj(map["x" := Null]), Obj(map["x" := EMPTY]);
            Over(Over(a, b), c) != Over(a, Over(b, c))
  {
    var inner := Obj(map["y" := Num(1)]);
    assert "y" in inner.fields && !Absorbed(inner, EMPTY);
    var a, b, c := Obj(map["x" := inner]), Obj(map["x" := Null]), Obj(map["x" := EMPTY]);
    assert "x" in a.fields && "x" in b.fields && "x" in c.fields
      && !Associates(a.fields["x"], b.fields["x"], c.fields["x"]);
    AssociativeExactly(a, b, c);
  }

  lemma {:induction false} OverSelf(p: Value)
    ensures Over(p, p) == p
    ensures Absorbed(p, p)
  {
    if p.Obj? {
      forall k | k in p.fields
        ensures Over(p.fields[k], p.fields[k]) == p.fields[k] && Absorbed(p.fields[k], p.fields[k])
      {
        OverSelf(p.fields[k]);
      }
    }
  }

  lemma {:induction false} SelfAssociates(a: Value, p: Value)
    ensures Associates(a, p, p)
    decreases p
  {
    if a.Obj? && p.Obj? {
      forall k | k in a.fields && k in p.fields
        ensures Associates(a.fields[k], p.fields[k], p.fields[k])
      {
        SelfAssociates(a.fields[k], p.fields[k]);
      }
    }
  }

  /** Applying a patch a second time changes nothing, whatever it is applied to. */
  lemma ReapplyingChangesNothing(a: Value, p: Value)
    ensures Over(Over(a, p), p) == Over(a, p)
  {
    SelfAssociates(a, p);
    AssociativeExactly(a, p, p);
    OverSelf(p);
  }

  // ----- The stored row and its view -----

  /** The live facts that a view is made of; there may be no account row for the plan. */
  datatype Live = Live(plan: Option<string>, applications: nat, endpoints: nat, sensors: nat, policies: nat,
                       samples: nat)

  const ENVELOPES: map<string, (int, int, int)> :=
    map["FREE" := (2, 500, 1), "GROWTH" := (10, 5000, 5), "ENTERPRISE" := (50, 100000, 50)]

  function LicenseDefaults(plan: Option<string>): Value {
    var tier := if plan.None? || plan.value == "" then "FREE" else Upper(plan.value);
    var envelope := if tier in ENVELOPES then ENVELOPES[tier] else ENVELOPES["FREE"];
    Obj(map["planTier" := Str(tier), "applicationsPurchased" := Num(envelope.0), "endpointAllowance" := Num(envelope.1),
            "sensorAllowance" := Num(envelope.2), "expiresOn" := Null])
  }

  function Signals(live: Live): map<string, Value> {
    map["controllerHealthy" := Bool(live.sensors > 0), "trafficSeen" := Bool(live.samples > 0),
        "inventoryVisible" := Bool(live.endpoints > 0), "policiesEnabled" := Bool(live.policies > 0)]
  }

  /** The defaults; `fixed` holds the sections with constant values. */
  function Defaults(fixed: map<string, Value>, live: Live): Value {
    var onboarding := Obj(map["completed" := Bool(false), "currentStep" := Str("deployment"),
                              "completedSteps" := Arr([]), "validation" := Obj(Signals(live))]);
    Obj(fixed["onboarding" := onboarding]["license" := LicenseDefaults(live.plan)])
  }

  /** The plan tier on display, when it is a text. */
  function PlanTier(license: Value, live: Live): Option<string> {
    if live.plan.Some? then Some(Upper(live.plan.value))
    else
      var stored := Get(license, "planTier");
      if !Has(license, "planTier") then Some("FREE") else if stored.Str? then Some(Upper(stored.s)) else None
  }

  function LicenseView(license: Value, live: Live): Option<Value> {
    if !license.Obj? then None
    else
      match PlanTier(license, live)
      case None => None
      case Some(tier) =>
        Some(Obj(license.fields["planTier" := Str(tier)]["applicationsUsed" := Num(live.applications)]
                 ["endpointUsage" := Num(live.endpoints)]["sensorUsage" := Num(live.sensors)]))
  }

  function OnboardingView(onboarding: Value, live: Live): Option<Value> {
    if !onboarding.Obj? then None
    else
      var validation := Get(onboarding, "validation");
      if Truthy(validation) && !validation.Obj? then None
      else
        var stored := if validation.Obj? then validation.fields else map[];
        Some(Obj(onboarding.fields["validation" := Obj(Signals(live) + stored)]))
  }

  /** The settings on display, or none when building them raises. */
  function View(fixed: map<string, Value>, live: Live, stored: Value): Option<Value>
    requires stored.Obj?
  {
    var merged := Over(Defaults(fixed, live), stored);
    match LicenseView(Get(merged, "license"), live)
    case None => None
    case Some(license) =>
      match OnboardingView(Get(merged, "onboarding"), live) {
        case None => None
        case Some(onboarding) => Some(Obj(merged.fields["license" := license]["onboarding" := onboarding]))
      }
  }

  class AccountSettings {
    var row: Option<Value>

    constructor ()
      ensures row == None && Valid() && Stored() == EMPTY
    {
      row := None;
    }

    predicate Valid()
      reads this
    {
      row.Some? ==> row.value.Obj?
    }

    function Stored(): Value
      reads this
      requires Valid()
    {
      if row.Some? then row.value else EMPTY
    }

    /** Merges and commits the patch, and only then builds the view; a view that fails leaves the patch committed. */
    method Modify(patch: Value, fixed: map<string, Value>, live: Live) returns (view: Option<Value>)
      requires Valid() && patch.Obj?
      modifies this
      ensures Valid() && Stored() == Over(old(Stored()), patch)
      ensures view == View(fixed, live, Stored())
    {
      if row.Some? {
        var merged := DeepMerge(row.value, patch);
        row := Some(merged);
      } else {
        assert Over(EMPTY, patch).fields == patch.fields;
        row := Some(patch);
      }
      view := View(fixed, live, Stored());
    }
  }

  /** One key of a merge of dicts. */
  lemma MergedAt(a: Value, b: Value, k: string)
    requires a.Obj? && b.Obj? && k in a.fields
    ensures Get(Over(a, b), k) == if k in b.fields then Over(a.fields[k], b.fields[k]) else a.fields[k]
  {
  }

  /** The stored settings that can be shown: license and onboarding are dicts, the stored validation is a dict or false,
      and a plan tier that is needed for display is a text. */
  predicate Showable(stored: Value, live: Live) {
    && (Has(stored, "license") ==> Get(stored, "license").Obj?)
    && (live.plan.None? && Has(Get(stored, "license"), "planTier") ==> Get(Get(stored, "license"), "planTier").Str?)
    && (Has(stored, "onboarding") ==>
          Get(stored, "onboarding").Obj?
          && (Truthy(Get(Get(stored, "onboarding"), "validation")) ==>
            Get(Get(stored, "onboarding"), "validation").Obj?))
  }

  lemma LicenseShowable(fixed: map<string, Value>, live: Live, stored: Value)
    requires stored.Obj?
    ensures LicenseView(Get(Over(Defaults(fixed, live), stored), "license"), live).Some? <==>
              && (Has(stored, "license") ==> Get(stored, "license").Obj?)
              && (live.plan.None? && Has(Get(stored, "license"), "planTier") ==>
                Get(Get(stored, "license"), "planTier").Str?)
  {
    var defaults := Defaults(fixed, live);
    MergedAt(defaults, stored, "license");
    var own := LicenseDefaults(live.plan);
    assert defaults.fields["license"] == own;
    assert own.fields["planTier"].Str?;
    if Has(stored, "license") && Get(stored, "license").Obj? {
      MergedAt(own, Get(stored, "license"), "planTier");
    }
  }

  lemma OnboardingShowable(fixed: map<string, Value>, live: Live, stored: Value)
    requires stored.Obj?
    ensures OnboardingView(Get(Over(Defaults(fixed, live), stored), "onboarding"), live).Some? <==>
              (Has(stored, "onboarding") ==>
                 Get(stored, "onboarding").Obj?
                 && (Truthy(Get(Get(stored, "onboarding"), "validation")) ==>
                   Get(Get(stored, "onboarding"), "validation").Obj?))
  {
    var defaults := Defaults(fixed, live);
    MergedAt(defaults, stored, "onboarding");
    var own := defaults.fields["onboarding"];
    assert "license" != "onboarding" by { assert |"license"| == 7 && |"onboarding"| == 10; }
    assert own.Obj? && "validation" in own.fields && own.fields["validation"].Obj?;
    if Has(stored, "onboarding") && Get(stored, "onboarding").Obj? {
      MergedAt(own, Get(stored, "onboarding"), "validation");
    }
  }

  /** Building the view raises exactly when the stored settings are not showable, so a patch that makes them so is
      committed and breaks every later view until another patch repairs it. */
  lemma ViewExistsExactly(fixed: map<string, Value>, live: Live, stored: Value)
    requires stored.Obj?
    ensures View(fixed, live, stored).Some? <==> Showable(stored, live)
  {
    LicenseShowable(fixed, live, stored);
    OnboardingShowable(fixed, live, stored);
  }

  const WIPED := Obj(map["license" := Null])

  /** A license set to null breaks the view, and goes on breaking it under every patch that leaves the license alone. */
  lemma WipedLicenseLasts(fixed: map<string, Value>, live: Live, patch: Value)
    requires patch.Obj? && !Has(patch, "license")
    ensures View(fixed, live, WIPED).None? && View(fixed, live, Over(WIPED, patch)).None?
  {
    ViewExistsExactly(fixed, live, WIPED);
    ViewExistsExactly(fixed, live, Over(WIPED, patch));
    assert Get(WIPED, "license") == Null && Get(Over(WIPED, patch), "license") == Null;
  }

  lemma LiveLicense(license: Value, live: Live)
    requires LicenseView(license, live).Some?
    ensures var shown := LicenseView(license, live).value;
            && Get(shown, "applicationsUsed") == Num(live.applications)
            && Get(shown, "endpointUsage") == Num(live.endpoints)
            && Get(shown, "sensorUsage") == Num(live.sensors)
            && (live.plan.Some? ==> Get(shown, "planTier") == Str(Upper(live.plan.value)))
            && (live.plan.None? && Has(license, "planTier") ==>
                  Get(license, "planTier").Str? && Get(shown, "planTier") == Str(Upper(Get(license, "planTier").s)))
            && (live.plan.None? && !Has(license, "planTier") ==> Get(shown, "planTier") == Str("FREE"))
  {
    assert |"planTier"| == 8 && |"applicationsUsed"| == 16 && |"endpointUsage"| == 13 && |"sensorUsage"| == 11;
  }

  /** The live plan and usage always win over stored ones. */
  lemma LiveLicenseWins(fixed: map<string, Value>, live: Live, stored: Value)
    requires stored.Obj? && View(fixed, live, stored).Some?
    ensures var license := Get(View(fixed, live, stored).value, "license");
            && Get(license, "applicationsUsed") == Num(live.applications)
            && Get(license, "endpointUsage") == Num(live.endpoints)
            && Get(license, "sensorUsage") == Num(live.sensors)
            && (live.plan.Some? ==> Get(license, "planTier") == Str(Upper(live.plan.value)))
            && (live.plan.None? && Has(Get(stored, "license"), "planTier") ==>
                  var tier := Get(Get(stored, "license"), "planTier");
                  tier.Str? && Get(license, "planTier") == Str(Upper(tier.s)))
  {
    assert "license" != "onboarding" by { assert |"license"| == 7 && |"onboarding"| == 10; }
    ViewExistsExactly(fixed, live, stored);
    LiveLicense(Get(Over(Defaults(fixed, live), stored), "license"), live);
    MergedAt(Defaults(fixed, live), stored, "license");
    var own := LicenseDefaults(live.plan);
    assert Get(Defaults(fixed, live), "license") == own;
    if Has(Get(stored, "license"), "planTier") {
      assert own.fields["planTier"].Str?;
      MergedAt(own, Get(stored, "license"), "planTier");
    }
  }

  /** Validation goes the other way: a stored flag wins over the live signal, key by key. */
  lemma StoredValidationWins(fixed: map<string, Value>, live: Live, stored: Value, k: string)
    requires stored.Obj? && View(fixed, live, stored).Some?
    ensures var shown := Get(Get(View(fixed, live, stored).value, "onboarding"), "validation");
            var kept := Get(Get(stored, "onboarding"), "validation");
            Get(shown, k) == if Has(kept, k) then Get(kept, k) else Get(Obj(Signals(live)), k)
  {
    var defaults := Defaults(fixed, live);
    var merged := Over(defaults, stored);
    assert "license" != "onboarding" by { assert |"license"| == 7 && |"onboarding"| == 10; }
    MergedAt(defaults, stored, "onboarding");
    var own := defaults.fields["onboarding"];
    assert own.Obj? && "validation" in own.fields && own.fields["validation"] == Obj(Signals(live));
    var onboarding := Get(merged, "onboarding");
    if Has(stored, "onboarding") { MergedAt(own, Get(stored, "onboarding"), "validation"); }
    ValidationShown(onboarding, live, k);
    var kept := Get(Get(stored, "onboarding"), "validation");
    if kept.Obj? { LayeredSignals(live, kept, k); }
  }

  lemma ValidationShown(onboarding: Value, live: Live, k: string)
    requires OnboardingView(onboarding, live).Some?
    ensures var shown, kept := Get(OnboardingView(onboarding, live).value, "validation"), Get(onboarding, "validation");
            Get(shown, k) == if Has(kept, k) then Get(kept, k) else Get(Obj(Signals(live)), k)
  {
  }

  lemma LayeredSignals(live: Live, kept: Value, k: string)
    requires kept.Obj?
    ensures Get(Over(Obj(Signals(live)), kept), k) == if Has(kept, k) then Get(kept, k) else Get(Obj(Signals(live)), k)
  {
    assert forall s :: s in Signals(live) ==> Signals(live)[s].Bool?;
  }
}
