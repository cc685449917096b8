/** What the settings on display show at each place: a stored value, a default, or nothing. */
module SettingsView {
  import opened Json
  import opened Strings
  import opened SettingsMerge

  // ----- What a document has at a path of keys: a dict, something else, or nothing -----

  function ValueAt(v: Value, path: seq<string>): Option<Value> {
    if path == [] then Some(v)
    else if v.Obj? && path[0] in v.fields then ValueAt(v.fields[path[0]], path[1..])
    else None
  }

  predicate Settles(v: Value, path: seq<string>) {
    ValueAt(v, path).Some? && !ValueAt(v, path).value.Obj?
  }

  predicate Opens(v: Value, path: seq<string>) {
    ValueAt(v, path).Some? && ValueAt(v, path).value.Obj?
  }

  /** On the way to the path, a dict has no such key. */
  predicate Leaves(v: Value, path: seq<string>) {
    path != [] && v.Obj? && (path[0] in v.fields ==> Leaves(v.fields[path[0]], path[1..]))
  }

  /** On the way to the path there is something that is no dict. */
  predicate Cuts(v: Value, path: seq<string>) {
    path != [] && if v.Obj? then path[0] in v.fields && Cuts(v.fields[path[0]], path[1..]) else true
  }

  lemma {:induction false} OneOfFour(v: Value, path: seq<string>)
    ensures Settles(v, path) || Opens(v, path) || Leaves(v, path) || Cuts(v, path)
    ensures Leaves(v, path) || Cuts(v, path) ==> ValueAt(v, path).None?
  {
    if path != [] && v.Obj? && path[0] in v.fields { OneOfFour(v.fields[path[0]], path[1..]); }
  }

  /** At every path a merge shows what is laid on top where that settles the path, what is below where it leaves the
      path alone, nothing where it cuts the path off, and a dict where it opens one. */
  lemma {:induction false} MergeShowsExactly(a: Value, b: Value, path: seq<string>)
    ensures Settles(b, path) ==> ValueAt(Over(a, b), path) == ValueAt(b, path)
    ensures Leaves(b, path) ==> ValueAt(Over(a, b), path) == ValueAt(a, path)
    ensures Cuts(b, path) ==> ValueAt(Over(a, b), path) == None
    ensures Opens(b, path) ==> Opens(Over(a, b), path)
  {
    if path != [] {
      OneOfFour(b, path);
      if a.Obj? && b.Obj? && path[0] in a.fields && path[0] in b.fields {
        MergeShowsExactly(a.fields[path[0]], b.fields[path[0]], path[1..]);
      } else if a.Obj? && b.Obj? && path[0] in b.fields {
        OneOfFour(b.fields[path[0]], path[1..]);
      }
    }
  }

  // ----- The view -----

  /** The path leads to nothing that the view fills in by itself. */
  predicate Stored(path: seq<string>) {
    && path != []
    && (path[0] == "license" ==>
          |path| > 1 && path[1] !in {"planTier", "applicationsUsed", "endpointUsage", "sensorUsage"})
    && (path[0] == "onboarding" ==> |path| > 1 && path[1] != "validation")
  }

  lemma DifferentKeys()
    ensures "license" != "onboarding"
    ensures "planTier" != "applicationsUsed" && "planTier" != "endpointUsage" && "planTier" != "sensorUsage"
  {
    assert |"license"| == 7 && |"onboarding"| == 10;
    assert |"planTier"| == 8 && |"applicationsUsed"| == 16 && |"endpointUsage"| == 13 && |"sensorUsage"| == 11;
  }

  lemma ViewIsMerge(fixed: map<string, Value>, live: Live, stored: Value, path: seq<string>)
    requires stored.Obj? && View(fixed, live, stored).Some? && Stored(path)
    ensures ValueAt(View(fixed, live, stored).value, path) == ValueAt(Over(Defaults(fixed, live), stored), path)
  {
    DifferentKeys();
    var view, merged := View(fixed, live, stored).value, Over(Defaults(fixed, live), stored);
    if path[0] == "license" {
      LicenseIsMerge(Get(merged, "license"), live, path[1..]);
    } else if path[0] == "onboarding" {
      OnboardingIsMerge(Get(merged, "onboarding"), live, path[1..]);
    }
  }

  lemma LicenseIsMerge(license: Value, live: Live, path: seq<string>)
    requires LicenseView(license, live).Some? && path != []
    requires path[0] !in {"planTier", "applicationsUsed", "endpointUsage", "sensorUsage"}
    ensures ValueAt(LicenseView(license, live).value, path) == ValueAt(license, path)
  {
  }

  lemma OnboardingIsMerge(onboarding: Value, live: Live, path: seq<string>)
    requires OnboardingView(onboarding, live).Some? && path != [] && path[0] != "validation"
    ensures ValueAt(OnboardingView(onboarding, live).value, path) == ValueAt(onboarding, path)
  {
  }

  /** Wherever the view fills in nothing by itself, a stored value that is no dict is on display, a default that the
      stored settings do not reach still is, and one that they cut off is not. */
  lemma ViewShowsExactly(fixed: map<string, Value>, live: Live, stored: Value, path: seq<string>)
    requires stored.Obj? && View(fixed, live, stored).Some? && Stored(path)
    ensures var shown := ValueAt(View(fixed, live, stored).value, path);
            && (Settles(stored, path) ==> shown == ValueAt(stored, path))
            && (Leaves(stored, path) && path[0] !in {"license", "onboarding"} ==> shown == ValueAt(Obj(fixed), path))
            && (Leaves(stored, path) ==> shown == ValueAt(Defaults(fixed, live), path))
            && (Cuts(stored, path) ==> shown == None)
            && (Opens(stored, path) ==> shown.Some? && shown.value.Obj?)
  {
    ViewIsMerge(fixed, live, stored, path);
    MergeShowsExactly(Defaults(fixed, live), stored, path);
  }

  /** A patched value that is no dict is on display after the patch, whatever was stored before. */
  lemma PatchIsShown(fixed: map<string, Value>, live: Live, stored: Value, patch: Value, path: seq<string>)
    requires stored.Obj? && patch.Obj? && View(fixed, live, Over(stored, patch)).Some?
    requires Stored(path) && Settles(patch, path)
    ensures ValueAt(View(fixed, live, Over(stored, patch)).value, path) == ValueAt(patch, path)
  {
    MergeShowsExactly(stored, patch, path);
    ViewShowsExactly(fixed, live, Over(stored, patch), path);
  }

  /** And one that the patch does not reach is stored as before. */
  lemma RestIsKept(stored: Value, patch: Value, path: seq<string>)
    requires stored.Obj? && patch.Obj? && Leaves(patch, path)
    ensures ValueAt(Over(stored, patch), path) == ValueAt(stored, path)
  {
    MergeShowsExactly(stored, patch, path);
  }

  // ----- What is on display when nothing is stored -----

  predicate Allows(license: Value, applications: int, endpoints: int, sensors: int) {
    && Get(license, "applicationsPurchased") == Num(applications) && Get(license, "endpointAllowance") == Num(endpoints)
    && Get(license, "sensorAllowance") == Num(sensors)
  }

  lemma LicenseKeys()
    ensures |"planTier"| == 8 && |"applicationsPurchased"| == 21 && |"endpointAllowance"| == 17
    ensures |"sensorAllowance"| == 15 && |"expiresOn"| == 9
    ensures |"applicationsUsed"| == 16 && |"endpointUsage"| == 13 && |"sensorUsage"| == 11
  {
  }

  lemma DefaultLicense(plan: Option<string>)
    ensures var license, tier := LicenseDefaults(plan), if plan.Some? then Upper(plan.value) else "FREE";
            && license.fields.Keys == {"planTier", "applicationsPurchased", "endpointAllowance", "sensorAllowance",
                                       "expiresOn"}
            && Get(license, "planTier").Str? && Get(license, "expiresOn") == Null
            && (if tier == "GROWTH" then Allows(license, 10, 5000, 5)
                else if tier == "ENTERPRISE" then Allows(license, 50, 100000, 50)
                else Allows(license, 2, 500, 1))
  {
    LicenseKeys();
    assert |"FREE"| == 4 && |"GROWTH"| == 6 && |"ENTERPRISE"| == 10 && Upper("") == "";
  }

  lemma LicenseOnDisplay(license: Value, live: Live)
    requires license.Obj? && (live.plan.None? ==> !Has(license, "planTier") || Get(license, "planTier") == Str("FREE"))
    ensures var shown := LicenseView(license, live);
            && shown.Some? && shown.value.Obj?
            && Get(shown.value, "planTier") == Str(if live.plan.Some? then Upper(live.plan.value) else "FREE")
            && forall k :: k !in {"planTier", "applicationsUsed", "endpointUsage", "sensorUsage"} ==>
                 Has(shown.value, k) == Has(license, k) && Get(shown.value, k) == Get(license, k)
  {
    LicenseKeys();
    assert Upper("FREE") == "FREE";
  }

  lemma FreshSections(fixed: map<string, Value>, live: Live)
    ensures View(fixed, live, EMPTY).Some?
    ensures LicenseView(LicenseDefaults(live.plan), live) == Some(Get(View(fixed, live, EMPTY).value, "license"))
    ensures OnboardingView(Get(Defaults(map[], live), "onboarding"), live)
         == Some(Get(View(fixed, live, EMPTY).value, "onboarding"))
  {
    ViewExistsExactly(fixed, live, EMPTY);
    assert Over(Defaults(fixed, live), EMPTY).fields == Defaults(fixed, live).fields;
    DifferentKeys();
  }

  /** With nothing stored, the plan decides the allowances, and a plan that is not known has those of the free one. */
  lemma FreshLicenseExactly(fixed: map<string, Value>, live: Live)
    ensures View(fixed, live, EMPTY).Some?
    ensures var license := Get(View(fixed, live, EMPTY).value, "license");
            var tier := if live.plan.Some? then Upper(live.plan.value) else "FREE";
            && Get(license, "planTier") == Str(tier) && Has(license, "expiresOn") && Get(license, "expiresOn") == Null
            && (if tier == "GROWTH" then Allows(license, 10, 5000, 5)
                else if tier == "ENTERPRISE" then Allows(license, 50, 100000, 50)
                else Allows(license, 2, 500, 1))
  {
    FreshSections(fixed, live);
    LicenseKeys();
    DefaultLicense(live.plan);
    FreePlan();
    LicenseOnDisplay(LicenseDefaults(live.plan), live);
  }

  /** Onboarding starts at deployment, with its four checks as the system stands. */
  lemma FreshOnboardingExactly(fixed: map<string, Value>, live: Live)
    ensures View(fixed, live, EMPTY).Some?
    ensures var onboarding := Get(View(fixed, live, EMPTY).value, "onboarding");
            && Get(onboarding, "completed") == Bool(false) && Get(onboarding, "currentStep") == Str("deployment")
            && Get(onboarding, "completedSteps") == Arr([])
            && Get(onboarding, "validation")
               == Obj(map["controllerHealthy" := Bool(live.sensors > 0), "trafficSeen" := Bool(live.samples > 0),
                          "inventoryVisible" := Bool(live.endpoints > 0), "policiesEnabled" := Bool(live.policies > 0)])
  {
    FreshSections(fixed, live);
    FreshOnboarding(live);
  }

  lemma FreePlan()
    ensures Get(LicenseDefaults(None), "planTier") == Str("FREE")
  {
    LicenseKeys();
  }

  lemma FreshOnboarding(live: Live)
    ensures var own := Get(Defaults(map[], live), "onboarding");
            && own.Obj? && OnboardingView(own, live).Some?
            && var shown := OnboardingView(own, live).value;
            && Get(shown, "completed") == Bool(false) && Get(shown, "currentStep") == Str("deployment")
            && Get(shown, "completedSteps") == Arr([]) && Get(shown, "validation") == Obj(Signals(live))
  {
    DifferentKeys();
    assert |"validation"| == 10 && |"completed"| == 9 && |"currentStep"| == 11 && |"completedSteps"| == 14;
    assert Signals(live) + Signals(live) == Signals(live);
  }
}
