/** Sorted sets of texts, as Python's sorted(set(...)) lists them. */
module Sorting {

  /** Lexicographic order by code point. */
  predicate Less(a: string, b: string) {
    b != "" && (a == "" || a[0] < b[0] || (a[0] == b[0] && Less(a[1..], b[1..])))
  }

  /** Up to some position the texts agree; there the smaller one ends or has the smaller character. */
  predicate LessFrom(a: string, b: string, n: nat) {
    && n <= |a| && n < |b| && a[..n] == b[..n]
    && (n == |a| || a[n] < b[n])
  }

  lemma {:induction false} LessExactly(a: string, b: string)
    ensures Less(a, b) <==> exists n: nat :: LessFrom(a, b, n)
  {
    if a != "" && b != "" && a[0] == b[0] {
      LessExactly(a[1..], b[1..]);
      forall n: nat
        ensures LessFrom(a, b, n + 1) <==> LessFrom(a[1..], b[1..], n)
      {
        if n <= |a| - 1 && n < |b| - 1 {
          assert a[..n + 1] == [a[0]] + a[1..][..n] && b[..n + 1] == [b[0]] + b[1..][..n];
          assert a[..n + 1][1..] == a[1..][..n] && b[..n + 1][1..] == b[1..][..n];
        }
      }
      if Less(a, b) {
        var n: nat :| LessFrom(a[1..], b[1..], n);
        assert LessFrom(a, b, n + 1);
      }
      if exists n: nat :: LessFrom(a, b, n) {
        var n: nat :| LessFrom(a, b, n);
        assert LessFrom(a[1..], b[1..], n - 1);
      }
    } else if b != "" {
      assert LessFrom(a, b, 0) <==> a == "" || a[0] < b[0];
      assert forall n: nat :: LessFrom(a, b, n) && n > 0 ==> a[..n][0] == b[..n][0];
    }
  }

  lemma {:induction false} LessTransitive(a: string, b: string, c: string)
    requires Less(a, b) && Less(b, c)
    ensures Less(a, c)
  {
    if a != "" && a[0] == b[0] && b[0] == c[0] { LessTransitive(a[1..], b[1..], c[1..]); }
  }

  lemma {:induction false} LessIrreflexive(a: string)
    ensures !Less(a, a)
  {
    if a != "" { LessIrreflexive(a[1..]); }
  }

  lemma {:induction false} LessTotal(a: string, b: string)
    ensures Less(a, b) || a == b || Less(b, a)
  {
    if a != "" && b != "" && a[0] == b[0] {
      LessTotal(a[1..], b[1..]);
      assert a == [a[0]] + a[1..] && b == [b[0]] + b[1..];
    }
  }

  ghost predicate StrictlySorted(xs: seq<string>) {
    forall i, j :: 0 <= i < j < |xs| ==> Less(xs[i], xs[j])
  }

  function Insert(x: string, xs: seq<string>): seq<string> {
    if xs == [] || Less(x, xs[0]) then [x] + xs
    else if x == xs[0] then xs
    else [xs[0]] + Insert(x, xs[1..])
  }

  function SortUnique(xs: seq<string>): seq<string> {
    if xs == [] then [] else Insert(xs[0], SortUnique(xs[1..]))
  }

  lemma {:induction false} InsertSorts(x: string, xs: seq<string>)
    requires StrictlySorted(xs)
    ensures StrictlySorted(Insert(x, xs))
    ensures forall y :: y in Insert(x, xs) <==> y == x || y in xs
  {
    if xs == [] {
    } else if Less(x, xs[0]) {
      forall i | 0 < i < |xs|
        ensures Less(x, xs[i])
      {
        LessTransitive(x, xs[0], xs[i]);
      }
    } else if x != xs[0] {
      LessTotal(x, xs[0]);
      var rest := xs[1..];
      InsertSorts(x, rest);
      assert xs == [xs[0]] + rest;
      var tail := Insert(x, rest);
      forall i | 0 <= i < |tail|
        ensures Less(xs[0], tail[i])
      {
        assert tail[i] in tail;
        if tail[i] != x {
          var j :| 0 <= j < |rest| && rest[j] == tail[i];
          assert xs[j + 1] == tail[i];
        }
      }
    }
  }

  /** The result is strictly sorted and holds exactly the given texts. */
  lemma {:induction false} SortUniqueSorts(xs: seq<string>)
    ensures StrictlySorted(SortUnique(xs))
    ensures forall y :: y in SortUnique(xs) <==> y in xs
  {
    if xs != [] {
      SortUniqueSorts(xs[1..]);
      InsertSorts(xs[0], SortUnique(xs[1..]));
      assert xs == [xs[0]] + xs[1..];
    }
  }

  /** A non-empty set of texts has a least one. */
  lemma {:induction false} HasLeast(s: set<string>)
    requires s != {}
    ensures exists x :: IsLeast(x, s)
  {
    var x :| x in s;
    if s - {x} == {} {
      assert s == {x};
      assert IsLeast(x, s);
    } else {
      HasLeast(s - {x});
      var y :| IsLeast(y, s - {x});
      LessTotal(x, y);
      if Less(x, y) {
        forall z | z in s
          ensures z == x || Less(x, z)
        {
          if z != x && z != y { LessTransitive(x, y, z); }
        }
        assert IsLeast(x, s);
      } else {
        assert IsLeast(y, s);
      }
    }
  }

  predicate IsLeast(x: string, s: set<string>) {
    x in s && forall y :: y in s ==> y == x || Less(x, y)
  }

  lemma LeastIsUnique(x: string, y: string, s: set<string>)
    requires IsLeast(x, s) && IsLeast(y, s)
    ensures x == y
  {
    if x != y {
      LessTransitive(x, y, x);
      LessIrreflexive(x);
    }
  }

  /** The elements of a set in order. */
  function Sorted(s: set<string>): (r: seq<string>)
    ensures StrictlySorted(r)
    ensures forall x :: x in r <==> x in s
  {
    if s == {} then []
    else
      HasLeast(s);
      assert forall x, y :: IsLeast(x, s) && IsLeast(y, s) ==> x == y by {
        forall x, y | IsLeast(x, s) && IsLeast(y, s)
          ensures x == y
        {
          LeastIsUnique(x, y, s);
        }
      }
      var x :| IsLeast(x, s);
      var rest := Sorted(s - {x});
      assert forall i :: 0 <= i < |rest| ==> rest[i] in s - {x};
      [x] + rest
  }
}
