/** Audit details: safety-policy metadata put back from the scan redaction into the stricter one. */
module AuditRestore {
  import opened Json
  import opened Strings

  const SAFETY_KEYS: set<string> := {"auth_profile_scope_policy", "state_change_policy", "target_guard_policy"}

  /** A safety key whose scan value is a dict is taken over from the scan, whether or not it was there before. */
  predicate TakenOver(s: Value, k: string) {
    s.Obj? && k in SAFETY_KEYS && k in s.fields && s.fields[k].Obj?
  }

  function TakeOver(r: map<string, Value>, s: Value): map<string, Value>
    requires s.Obj?
  {
    map k | k in r.Keys + (SAFETY_KEYS * s.fields.Keys) && (k in r || TakenOver(s, k)) ::
      if TakenOver(s, k) then s.fields[k] else r[k]
  }

  /** The tree after the restore. */
  function Restored(r: Value, s: Value): Value
    decreases s
  {
    if r.Obj? && s.Obj? then
      var fields := TakeOver(r.fields, s);
      Obj(map k | k in fields :: if k in s.fields then Restored(fields[k], s.fields[k]) else fields[k])
    else if r.Arr? && s.Arr? then
      Arr(seq(|r.items|, i requires 0 <= i < |r.items| =>
        if i < |s.items| then Restored(r.items[i], s.items[i]) else r.items[i]))
    else r
  }

  /** The recursion as it runs: safety keys first, then every entry of
      the dict; lists pairwise up to the shorter one. */
  method Restore(redacted: Value, scan: Value) returns (restored: Value)
    ensures restored == Restored(redacted, scan)
    decreases scan, 1
  {
    if redacted.Obj? && scan.Obj? {
      var fields := redacted.fields;
      var keys := SAFETY_KEYS;
      while keys != {}
        invariant keys <= SAFETY_KEYS
        invariant fields.Keys == redacted.fields.Keys + set k | k in SAFETY_KEYS - keys && TakenOver(scan, k)
        invariant forall k :: k in fields ==>
          fields[k] == if k !in keys && TakenOver(scan, k) then scan.fields[k] else redacted.fields[k]
      {
        var key :| key in keys;
        if Get(scan, key).Obj? { fields := fields[key := Get(scan, key)]; }
        keys := keys - {key};
      }
      assert fields == TakeOver(redacted.fields, scan);
      restored := RestoreEntries(fields, scan);
    } else if redacted.Arr? && scan.Arr? {
      restored := RestoreItems(redacted, scan);
    } else {
      restored := redacted;
    }
  }

  method RestoreEntries(fields: map<string, Value>, scan: Value) returns (restored: Value)
    requires scan.Obj?
    ensures restored == Obj(map k | k in fields ::
                              if k in scan.fields then Restored(fields[k], scan.fields[k]) else fields[k])
    decreases scan, 0
  {
    var now := fields;
    var todo := fields.Keys;
    while todo != {}
      invariant todo <= fields.Keys && now.Keys == fields.Keys
      invariant forall k :: k in fields ==>
        now[k] == if k !in todo && k in scan.fields then Restored(fields[k], scan.fields[k]) else fields[k]
    {
      var key :| key in todo;
      if key in scan.fields {
        var value := Restore(now[key], scan.fields[key]);
        now := now[key := value];
      }
      todo := todo - {key};
    }
    restored := Obj(now);
  }

  method RestoreItems(redacted: Value, scan: Value) returns (restored: Value)
    requires redacted.Arr? && scan.Arr?
    ensures restored == Restored(redacted, scan)
    decreases scan, 0
  {
    var items := redacted.items;
    var i := 0;
    while i < |redacted.items| && i < |scan.items|
      invariant 0 <= i <= |redacted.items| == |items| && i <= |scan.items|
      invariant forall j :: 0 <= j < i ==> items[j] == Restored(redacted.items[j], scan.items[j])
      invariant forall j :: i <= j < |items| ==> items[j] == redacted.items[j]
    {
      var item := Restore(items[i], scan.items[i]);
      items := items[i := item];
      i := i + 1;
    }
    restored := Arr(items);
    assert items == Restored(redacted, scan).items;
  }

  // ----- Positions in a tree -----

  datatype Step = Key(key: string) | Index(index: nat)

  function Child(v: Value, step: Step): Option<Value> {
    match step
    case Key(k) => if v.Obj? && k in v.fields then Some(v.fields[k]) else None
    case Index(i) => if v.Arr? && i < |v.items| then Some(v.items[i]) else None
  }

  function At(v: Value, path: seq<Step>): Option<Value> {
    if path == [] then Some(v)
    else
      match Child(v, path[0])
      case None => None
      case Some(w) => At(w, path[1..])
  }

  /** The step is a safety key. */
  predicate Safety(step: Step) {
    step.Key? && step.key in SAFETY_KEYS
  }

  lemma {:induction false} RestoreSelf(x: Value)
    ensures Restored(x, x) == x
  {
    match x
    case Obj(fields) =>
      assert TakeOver(fields, x) == fields;
      forall k | k in fields
        ensures Restored(fields[k], fields[k]) == fields[k]
      {
        RestoreSelf(fields[k]);
      }
    case Arr(items) =>
      forall i | 0 <= i < |items|
        ensures Restored(items[i], items[i]) == items[i]
      {
        RestoreSelf(items[i]);
      }
    case _ =>
  }

  /** One step down from the restored tree. */
  lemma RestoredChild(r: Value, s: Value, step: Step)
    ensures var c, d := Child(r, step), Child(s, step);
            && (Safety(step) && r.Obj? && d.Some? && d.value.Obj? ==> Child(Restored(r, s), step) == d)
            && (!(Safety(step) && r.Obj? && d.Some? && d.value.Obj?) ==>
                  Child(Restored(r, s), step) ==
                    if c.Some? && d.Some? then Some(Restored(c.value, d.value)) else c)
  {
    if Safety(step) && r.Obj? && Child(s, step).Some? && Child(s, step).value.Obj? {
      RestoreSelf(Child(s, step).value);
    }
  }

  /** One of the three safety policies, and a dict in the scan. */
  predicate Claimed(s: Value, k: string) {
    && k in {"auth_profile_scope_policy", "state_change_policy", "target_guard_policy"}
    && s.Obj? && k in s.fields && s.fields[k].Obj?
  }

  /** Wherever both trees have a dict at the same place, every safety
      key that is a dict in the scan equals it afterwards. */
  lemma {:induction false} SafetyKeysRestored(r: Value, s: Value, path: seq<Step>, k: string)
    requires At(r, path).Some? && At(r, path).value.Obj?
    requires At(s, path).Some? && Claimed(At(s, path).value, k)
    ensures At(Restored(r, s), path + [Key(k)]) == Some(At(s, path).value.fields[k])
  {
    if path == [] {
      RestoredChild(r, s, Key(k));
      assert ([Key(k)])[1..] == [];
    } else {
      RestoredChild(r, s, path[0]);
      assert (path + [Key(k)])[1..] == path[1..] + [Key(k)];
      var c, d := Child(r, path[0]).value, Child(s, path[0]).value;
      if Safety(path[0]) && d.Obj? {
        AtAppend(d, path[1..], Key(k));
      } else {
        SafetyKeysRestored(c, d, path[1..], k);
      }
    }
  }

  lemma {:induction false} AtAppend(v: Value, path: seq<Step>, step: Step)
    ensures At(v, path + [step]) == if At(v, path).None? then None else Child(At(v, path).value, step)
  {
    if path == [] {
      assert ([step])[1..] == [];
    } else {
      assert (path + [step])[1..] == path[1..] + [step];
      if Child(v, path[0]).Some? { AtAppend(Child(v, path[0]).value, path[1..], step); }
    }
  }

  /** What a position shows apart from its children: a scalar, the length of a list, or keys of a dict. */
  datatype Face = Scalar(v: Value) | Length(n: nat) | Keys(keys: set<string>)

  /** The face of a position, without the keys that are taken over from the scan's value there. */
  function FaceOf(v: Value, scan: Option<Value>): Face {
    match v
    case Obj(fields) => Keys(set k | k in fields && !(scan.Some? && Claimed(scan.value, k)))
    case Arr(items) => Length(|items|)
    case _ => Scalar(v)
  }

  /** No step of the path is a key that is taken over. */
  predicate KeepsOut(s: Value, path: seq<Step>) {
    if path == [] then true
    else
      && !(path[0].Key? && Claimed(s, path[0].key))
      && (Child(s, path[0]).Some? ==> KeepsOut(Child(s, path[0]).value, path[1..]))
  }

  /** No position that is reached without a key taken over appears, disappears or changes its face; safety keys that are
      no dict in the scan are kept like all others. */
  lemma {:induction false} OtherPositionsKept(r: Value, s: Value, path: seq<Step>)
    requires KeepsOut(s, path)
    ensures At(Restored(r, s), path).Some? <==> At(r, path).Some?
    ensures At(r, path).Some? ==>
              FaceOf(At(Restored(r, s), path).value, At(s, path)) == FaceOf(At(r, path).value, At(s, path))
  {
    if path == [] {
      if r.Obj? && s.Obj? {
        assert FaceOf(Restored(r, s), Some(s)).keys == FaceOf(r, Some(s)).keys;
      }
    } else {
      RestoredChild(r, s, path[0]);
      var c, d := Child(r, path[0]), Child(s, path[0]);
      if c.Some? && d.Some? { OtherPositionsKept(c.value, d.value, path[1..]); }
    }
  }

  /** Restoring a second time changes nothing. */
  lemma {:induction false} RestoreIsIdempotent(r: Value, s: Value)
    ensures Restored(Restored(r, s), s) == Restored(r, s)
    decreases s
  {
    var once := Restored(r, s);
    var twice := Restored(once, s);
    if r.Obj? && s.Obj? {
      forall k | k in once.fields || k in twice.fields
        ensures k in once.fields && k in twice.fields && twice.fields[k] == once.fields[k]
      {
        RestoredChild(r, s, Key(k));
        RestoredChild(once, s, Key(k));
        if !TakenOver(s, k) && k in r.fields && k in s.fields { RestoreIsIdempotent(r.fields[k], s.fields[k]); }
      }
      assert twice.fields == once.fields;
    } else if r.Arr? && s.Arr? {
      forall i | 0 <= i < |r.items|
        ensures twice.items[i] == once.items[i]
      {
        if i < |s.items| { RestoreIsIdempotent(r.items[i], s.items[i]); }
      }
      assert twice.items == once.items;
    }
  }
}
