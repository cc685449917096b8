/** Accumulated settings patches laid over defaults, against the same patches applied to the defaults one by one. */
module SettingsLayers {
  import opened Json
  import opened SettingsMerge

  function Applied(base: Value, patches: seq<Value>): Value {
    if patches == [] then base
    else Over(Applied(base, patches[..|patches| - 1]), patches[|patches| - 1])
  }

  lemma AppliedNext(base: Value, patches: seq<Value>, n: nat)
    requires n < |patches|
    ensures Applied(base, patches[..n + 1]) == Over(Applied(base, patches[..n]), patches[n])
  {
    assert patches[..n + 1][..n] == patches[..n];
  }

  lemma OverEmpty(d: Value)
    requires d.Obj?
    ensures Over(d, EMPTY) == d && Over(EMPTY, d) == d
  {
    assert Over(d, EMPTY).fields == d.fields && Over(EMPTY, d).fields == d.fields;
  }

  // ----- After every patch -----

  /** What is stored after `n` patches, laid over the defaults, is the defaults patched `n` times. */
  predicate LayeredAfter(d: Value, patches: seq<Value>, n: nat)
    requires n <= |patches|
  {
    Over(d, Applied(EMPTY, patches[..n])) == Applied(d, patches[..n])
  }

  lemma LayeredNext(d: Value, patches: seq<Value>, n: nat)
    requires n < |patches| && LayeredAfter(d, patches, n)
    ensures LayeredAfter(d, patches, n + 1) <==> Associates(d, Applied(EMPTY, patches[..n]), patches[n])
  {
    AppliedNext(EMPTY, patches, n);
    AppliedNext(d, patches, n);
    AssociativeExactly(d, Applied(EMPTY, patches[..n]), patches[n]);
  }

  lemma {:induction false} LayeredUpTo(d: Value, patches: seq<Value>, n: nat)
    requires d.Obj? && n <= |patches|
    requires forall i :: 0 <= i < n ==> Associates(d, Applied(EMPTY, patches[..i]), patches[i])
    ensures LayeredAfter(d, patches, n)
  {
    if n == 0 {
      OverEmpty(d);
      assert patches[..0] == [];
    } else {
      LayeredUpTo(d, patches, n - 1);
      LayeredNext(d, patches, n - 1);
    }
  }

  /** The view agrees after every single patch exactly when each patch associates with the defaults and what was stored
      before it. */
  lemma EveryPatchLayersExactly(defaults: Value, patches: seq<Value>)
    requires defaults.Obj?
    ensures (forall n :: 0 <= n <= |patches| ==> LayeredAfter(defaults, patches, n)) <==>
            (forall n :: 0 <= n < |patches| ==> Associates(defaults, Applied(EMPTY, patches[..n]), patches[n]))
  {
    if forall n :: 0 <= n <= |patches| ==> LayeredAfter(defaults, patches, n) {
      forall n | 0 <= n < |patches|
        ensures Associates(defaults, Applied(EMPTY, patches[..n]), patches[n])
      {
        assert LayeredAfter(defaults, patches, n) && LayeredAfter(defaults, patches, n + 1);
        LayeredNext(defaults, patches, n);
      }
    } else {
      var n :| 0 <= n <= |patches| && !LayeredAfter(defaults, patches, n);
      if forall i :: 0 <= i < n ==> Associates(defaults, Applied(EMPTY, patches[..i]), patches[i]) {
        LayeredUpTo(defaults, patches, n);
      }
    }
  }

  // ----- After all patches: a later patch may hide what an earlier one broke -----

  predicate AllDicts(values: seq<Value>) {
    forall i :: 0 <= i < |values| ==> values[i].Obj?
  }

  /** The values after the last one that is no dict. */
  function Recent(values: seq<Value>): seq<Value> {
    if values == [] || !values[|values| - 1].Obj? then []
    else Recent(values[..|values| - 1]) + [values[|values| - 1]]
  }

  /** What the patches say about one key, oldest first. */
  function At(patches: seq<Value>, key: string): seq<Value> {
    if patches == [] then []
    else
      var last := patches[|patches| - 1];
      At(patches[..|patches| - 1], key) + if Has(last, key) then [last.fields[key]] else []
  }

  /** Read down the defaults: as long as every patch of a dict is a dict, go on below; where one is not, the dicts that
      came after it have to overwrite everything the defaults hold there. */
  predicate Layers(d: Value, patches: seq<Value>)
    decreases d
  {
    if !d.Obj? then true
    else if AllDicts(patches) then forall k :: k in d.fields ==> Layers(d.fields[k], At(patches, k))
    else Recent(patches) == [] || Absorbed(d, Applied(Null, Recent(patches)))
  }

  /** A value that is no dict wipes out everything before it. */
  lemma {:induction false} OnlyRecentCounts(base: Value, values: seq<Value>)
    requires !AllDicts(values)
    ensures Applied(base, values)
              == if Recent(values) == [] then values[|values| - 1] else Applied(Null, Recent(values))
    ensures Recent(values) == [] ==> !values[|values| - 1].Obj?
  {
    var before, last := values[..|values| - 1], values[|values| - 1];
    if last.Obj? {
      assert !AllDicts(before);
      OnlyRecentCounts(base, before);
      assert Recent(values)[..|Recent(before)|] == Recent(before);
    }
  }

  lemma {:induction false} PlainBase(base: Value, values: seq<Value>)
    requires !base.Obj? && values != []
    ensures Applied(base, values) == Applied(Null, values)
  {
    if |values| > 1 { PlainBase(base, values[..|values| - 1]); }
  }

  lemma {:induction false} EmptyBase(values: seq<Value>)
    requires values != [] && AllDicts(values)
    ensures Applied(EMPTY, values) == Applied(Null, values)
  {
    if |values| > 1 { EmptyBase(values[..|values| - 1]); } else { OverEmpty(values[0]); }
  }

  /** Patching dict by dict is patching key by key. */
  lemma {:induction false} AppliedAt(base: Value, patches: seq<Value>, k: string)
    requires base.Obj? && AllDicts(patches)
    ensures Applied(base, patches).Obj?
    ensures Has(Applied(base, patches), k) <==> k in base.fields || At(patches, k) != []
    ensures Has(Applied(base, patches), k) ==>
              Applied(base, patches).fields[k]
                == Applied(if k in base.fields then base.fields[k] else Null, At(patches, k))
  {
    if patches != [] {
      var before, last := patches[..|patches| - 1], patches[|patches| - 1];
      AppliedAt(base, before, k);
      if Has(last, k) {
        assert At(patches, k)[..|At(before, k)|] == At(before, k);
      } else {
        assert At(patches, k) == At(before, k);
      }
    }
  }

  /** Storing patches and laying them over a value agrees with applying them to it exactly when they layer. */
  lemma {:induction false} LayersExactly(d: Value, patches: seq<Value>)
    requires patches != []
    ensures Over(d, Applied(Null, patches)) == Applied(d, patches) <==> Layers(d, patches)
    decreases d
  {
    if !d.Obj? {
      PlainBase(d, patches);
    } else if !AllDicts(patches) {
      OnlyRecentCounts(d, patches);
      OnlyRecentCounts(Null, patches);
      if Recent(patches) != [] { AbsorbedExactly(d, Applied(Null, Recent(patches))); }
    } else {
      EmptyBase(patches);
      LayersByKey(d, patches);
    }
  }

  lemma {:induction false} LayersByKey(d: Value, patches: seq<Value>)
    requires d.Obj? && AllDicts(patches)
    ensures Over(d, Applied(EMPTY, patches)) == Applied(d, patches) <==> Layers(d, patches)
    decreases d, 0
  {
    AppliedAt(EMPTY, patches, "");
    AppliedAt(d, patches, "");
    var left, right := Over(d, Applied(EMPTY, patches)), Applied(d, patches);
    forall k
      ensures k in left.fields <==> k in right.fields
      ensures k in left.fields ==>
                (left.fields[k] == right.fields[k] <==> k !in d.fields || Layers(d.fields[k], At(patches, k)))
    {
      AppliedAt(EMPTY, patches, k);
      AppliedAt(d, patches, k);
      if k in d.fields {
        if At(patches, k) != [] { LayersExactly(d.fields[k], At(patches, k)); } else { NothingLayers(d.fields[k]); }
      }
    }
    if Layers(d, patches) {
      assert left.fields == right.fields;
    } else {
      var k :| k in d.fields && !Layers(d.fields[k], At(patches, k));
      assert left.fields[k] != right.fields[k];
    }
  }

  lemma {:induction false} NothingLayers(d: Value)
    ensures Layers(d, [])
  {
    if d.Obj? {
      forall k | k in d.fields
        ensures Layers(d.fields[k], At([], k))
      {
        NothingLayers(d.fields[k]);
      }
    }
  }

  /** The stored patches laid over the defaults equal the patches applied one by one exactly when they layer.  Every
      patch that reaches the store is a dict. */
  lemma StoredPatchesLayerExactly(defaults: Value, patches: seq<Value>)
    requires defaults.Obj? && AllDicts(patches)
    ensures Over(defaults, Applied(EMPTY, patches)) == Applied(defaults, patches) <==> Layers(defaults, patches)
  {
    LayersByKey(defaults, patches);
  }

  // ----- Patches that keep the shape of the defaults -----

  /** `p` has a dict wherever `d` has one, as far as `p` goes. */
  predicate Respects(d: Value, p: Value)
    decreases p
  {
    d.Obj? ==> p.Obj? && forall k :: k in d.fields && k in p.fields ==> Respects(d.fields[k], p.fields[k])
  }

  lemma {:induction false} RespectsAt(d: Value, patches: seq<Value>, k: string)
    requires d.Obj? && k in d.fields && forall p :: p in patches ==> Respects(d, p)
    ensures forall v :: v in At(patches, k) ==> Respects(d.fields[k], v)
  {
    if patches != [] {
      var before, last := patches[..|patches| - 1], patches[|patches| - 1];
      assert patches == before + [last];
      RespectsAt(d, before, k);
      assert Respects(d, last);
    }
  }

  /** In particular patches layer when none replaces a dict of the defaults by something else. */
  lemma {:induction false} RespectfulPatchesLayer(d: Value, patches: seq<Value>)
    requires forall p :: p in patches ==> Respects(d, p)
    ensures Layers(d, patches)
    decreases d
  {
    if d.Obj? {
      assert forall i :: 0 <= i < |patches| ==> patches[i] in patches && Respects(d, patches[i]);
      forall k | k in d.fields
        ensures Layers(d.fields[k], At(patches, k))
      {
        RespectsAt(d, patches, k);
        RespectfulPatchesLayer(d.fields[k], At(patches, k));
      }
    }
  }

  // ----- Witnesses -----

  const PLAIN := Obj(map["license" := Obj(map["planTier" := Num(1)])])
  const REOPENED := Obj(map["license" := EMPTY])

  lemma WipedThenReopened()
    ensures At([WIPED, REOPENED], "license") == [Null, EMPTY]
    ensures Recent([Null, EMPTY]) == [EMPTY] && Applied(Null, [EMPTY]) == EMPTY
  {
    var patches: seq<Value> := [WIPED, REOPENED];
    assert patches[..1] == [WIPED] && [WIPED][..0] == [];
    assert At([WIPED], "license") == [Null];
    var values: seq<Value> := [Null, EMPTY];
    assert values[..1] == [Null];
    assert Recent([Null]) == [] && [EMPTY][..0] == [];
  }

  /** Setting the license to null and then to an empty dict: the stored
      patches bring the default plan back, patching the defaults does not. */
  lemma LayeringCanFail()
    ensures Over(PLAIN, Applied(EMPTY, [WIPED, REOPENED])) != Applied(PLAIN, [WIPED, REOPENED])
  {
    WipedThenReopened();
    var license := PLAIN.fields["license"];
    assert "planTier" in license.fields && !Absorbed(license, EMPTY);
    var values: seq<Value> := [Null, EMPTY];
    assert !values[0].Obj? && !AllDicts(values);
    assert !Layers(license, values);
    assert "license" in PLAIN.fields && AllDicts([WIPED, REOPENED]);
    StoredPatchesLayerExactly(PLAIN, [WIPED, REOPENED]);
  }

  /** Wiping the license alone replaces a dict of the defaults, and layers all the same. */
  lemma WipingLayers()
    ensures !Respects(PLAIN, WIPED) && Over(PLAIN, Applied(EMPTY, [WIPED])) == Applied(PLAIN, [WIPED])
  {
    assert "license" in PLAIN.fields && "license" in WIPED.fields;
    assert [WIPED][..0] == [];
    OverEmpty(WIPED);
  }
}
