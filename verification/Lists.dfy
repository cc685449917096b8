/** Lists: prefixes, the first items, concatenation. */
module Lists {

  lemma NextPrefix<T>(xs: seq<T>, i: nat)
    requires i < |xs|
    ensures xs[..i + 1] == xs[..i] + [xs[i]]
  {
  }

  // ----- What a filter keeps: which positions, in which order -----

  /** `kept` is made of exactly the items of `all` that satisfy `p`, in order and one by one; `at` says where those
      are. */
  ghost predicate Picks<A, B>(all: seq<A>, kept: seq<B>, p: A -> bool, g: A -> B, at: seq<nat>) {
    && |at| == |kept|
    && (forall i :: 0 <= i < |at| ==> at[i] < |all| && p(all[at[i]]) && kept[i] == g(all[at[i]]))
    && (forall i, j :: 0 <= i < j < |at| ==> at[i] < at[j])
    && (forall k: nat :: k < |all| && p(all[k]) ==> k in at)
  }

  function Shifted(at: seq<nat>): seq<nat> {
    seq(|at|, i requires 0 <= i < |at| => at[i] + 1)
  }

  ghost predicate Picked<A, B>(all: seq<A>, kept: seq<B>, p: A -> bool, g: A -> B) {
    exists at :: Picks(all, kept, p, g, at)
  }

  lemma ShiftedHas(at: seq<nat>, k: nat)
    ensures k in Shifted(at) <==> k > 0 && k - 1 in at
  {
    if k in Shifted(at) {
      var i :| 0 <= i < |at| && Shifted(at)[i] == k;
      assert at[i] == k - 1;
    }
    if k > 0 && k - 1 in at {
      var i :| 0 <= i < |at| && at[i] == k - 1;
      assert Shifted(at)[i] == k;
    }
  }

  /** One more item in front that is not kept. */
  lemma PicksSkip<A, B>(all: seq<A>, kept: seq<B>, p: A -> bool, g: A -> B, at: seq<nat>)
    requires all != [] && Picks(all[1..], kept, p, g, at) && !p(all[0])
    ensures Picks(all, kept, p, g, Shifted(at))
  {
    assert forall i :: 0 <= i < |at| ==> all[Shifted(at)[i]] == all[1..][at[i]];
    forall k: nat | k < |all| && p(all[k])
      ensures k in Shifted(at)
    {
      assert all[1..][k - 1] == all[k];
      ShiftedHas(at, k);
    }
  }

  lemma StillIncreasing(at: seq<nat>)
    requires forall i, j :: 0 <= i < j < |at| ==> at[i] < at[j]
    ensures var here := [0] + Shifted(at); forall i, j :: 0 <= i < j < |here| ==> here[i] < here[j]
  {
  }

  /** One more item in front that is kept. */
  lemma PicksCons<A, B>(all: seq<A>, kept: seq<B>, p: A -> bool, g: A -> B, at: seq<nat>)
    requires all != [] && Picks(all[1..], kept, p, g, at) && p(all[0])
    ensures Picks(all, [g(all[0])] + kept, p, g, [0] + Shifted(at))
  {
    var moved, both := Shifted(at), [g(all[0])] + kept;
    var here: seq<nat> := [0] + moved;
    forall i | 0 <= i < |here|
      ensures here[i] < |all| && p(all[here[i]]) && both[i] == g(all[here[i]])
    {
      if i > 0 { assert here[i] == at[i - 1] + 1 && all[here[i]] == all[1..][at[i - 1]]; }
    }
    StillIncreasing(at);
    forall k: nat | k < |all| && p(all[k])
      ensures k in here
    {
      if k > 0 {
        assert all[1..][k - 1] == all[k];
        ShiftedHas(at, k);
      }
    }
  }

  /** One more item in front, kept or not. */
  lemma PicksNext<A, B>(all: seq<A>, kept: seq<B>, now: seq<B>, p: A -> bool, g: A -> B, at: seq<nat>)
    returns (at': seq<nat>)
    requires all != [] && Picks(all[1..], kept, p, g, at)
    requires now == (if p(all[0]) then [g(all[0])] else []) + kept
    ensures Picks(all, now, p, g, at')
  {
    if p(all[0]) {
      PicksCons(all, kept, p, g, at);
      at' := [0] + Shifted(at);
    } else {
      assert now == kept;
      PicksSkip(all, kept, p, g, at);
      at' := Shifted(at);
    }
  }

  lemma PicksAlike<A, B>(all: seq<A>, kept: seq<B>, p: A -> bool, p': A -> bool, g: A -> B, g': A -> B, at: seq<nat>)
    requires Picks(all, kept, p, g, at)
    requires forall i :: 0 <= i < |all| ==> p(all[i]) == p'(all[i]) && g(all[i]) == g'(all[i])
    ensures Picks(all, kept, p', g', at) && Picked(all, kept, p', g')
  {
    assert Picks(all, kept, p', g', at);
  }

  /** The items that satisfy `p`, in order. */
  function Kept<T>(xs: seq<T>, p: T -> bool): seq<T> {
    if xs == [] then [] else (if p(xs[0]) then [xs[0]] else []) + Kept(xs[1..], p)
  }

  lemma {:induction false} KeptAppend<T>(xs: seq<T>, x: T, p: T -> bool)
    ensures Kept(xs + [x], p) == Kept(xs, p) + if p(x) then [x] else []
  {
    if xs == [] {
      assert xs + [x] == [x] && [x][1..] == [];
    } else {
      KeptAppend(xs[1..], x, p);
      assert (xs + [x])[1..] == xs[1..] + [x];
    }
  }

  lemma {:induction false} KeptEmpty<T>(xs: seq<T>, p: T -> bool)
    ensures Kept(xs, p) == [] <==> forall x :: x in xs ==> !p(x)
  {
    if xs != [] {
      KeptEmpty(xs[1..], p);
      assert xs == [xs[0]] + xs[1..];
    }
  }

  ghost function HowMany<T>(xs: seq<T>, p: T -> bool): nat {
    |set i | 0 <= i < |xs| && p(xs[i])|
  }

  lemma HowManyNext<T>(xs: seq<T>, p: T -> bool)
    requires xs != []
    ensures HowMany(xs, p) == HowMany(xs[..|xs| - 1], p) + if p(xs[|xs| - 1]) then 1 else 0
  {
    var n := |xs| - 1;
    var front := xs[..n];
    var all, before := set i | 0 <= i < |xs| && p(xs[i]), set i | 0 <= i < n && p(front[i]);
    assert all == before + if p(xs[n]) then {n} else {};
  }

  function Take<T>(xs: seq<T>, n: nat): seq<T> {
    if |xs| <= n then xs else xs[..n]
  }

  function Flatten<T>(xss: seq<seq<T>>): seq<T> {
    if xss == [] then [] else xss[0] + Flatten(xss[1..])
  }

  lemma {:induction false} FlattenAppend<T>(xss: seq<seq<T>>, xs: seq<T>)
    ensures Flatten(xss + [xs]) == Flatten(xss) + xs
  {
    if xss == [] {
      assert xss + [xs] == [xs] && [xs][1..] == [];
    } else {
      FlattenAppend(xss[1..], xs);
      assert (xss + [xs])[1..] == xss[1..] + [xs];
    }
  }

  lemma {:induction false} FlattenEmpty<T>(xss: seq<seq<T>>)
    ensures Flatten(xss) == [] <==> forall i :: 0 <= i < |xss| ==> xss[i] == []
  {
    if xss != [] {
      FlattenEmpty(xss[1..]);
      assert forall i :: 0 < i < |xss| ==> xss[i] == xss[1..][i - 1];
    }
  }

  lemma Regroup<T>(a: seq<T>, b: seq<T>, c: seq<T>)
    ensures (a + b) + c == a + (b + c)
  {
  }

  lemma RegroupSets<T>(a: set<T>, b: set<T>, c: set<T>)
    ensures (a + b) + c == a + (b + c)
  {
  }
}
