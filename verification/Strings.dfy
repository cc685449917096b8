/** Optional values, and text helpers: ASCII case, stripping, decimal printing, splitting at a separator. */
module Strings {
  datatype Option<+T> = None | Some(value: T) {
    predicate IsFailure() { None? }
    function PropagateFailure<U>(): Option<U>
      requires None?
    { None }
    function Extract(): T
      requires Some?
    { value }
  }

  // ----- ASCII case and white space -----

  function LowerChar(c: char): char {
    if 'A' <= c <= 'Z' then c - 'A' + 'a' else c
  }

  function UpperChar(c: char): char {
    if 'a' <= c <= 'z' then c - 'a' + 'A' else c
  }

  function Lower(s: string): string {
    seq(|s|, i requires 0 <= i < |s| => LowerChar(s[i]))
  }

  function Upper(s: string): string {
    seq(|s|, i requires 0 <= i < |s| => UpperChar(s[i]))
  }

  predicate Blank(c: char) {
    c == ' ' || '\t' <= c <= '\r' || '\U{1c}' <= c <= '\U{1f}'
  }

  function StripLeft(s: string): string {
    if s != "" && Blank(s[0]) then StripLeft(s[1..]) else s
  }

  function StripRight(s: string): string {
    if s != "" && Blank(s[|s| - 1]) then StripRight(s[..|s| - 1]) else s
  }

  function Strip(s: string): string {
    StripRight(StripLeft(s))
  }

  // ----- What stripping and changing case do -----

  /** Tab to carriage return, the four separators, and the space. */
  predicate WhiteSpace(c: char) {
    c as int in {9, 10, 11, 12, 13, 28, 29, 30, 31, 32}
  }

  lemma BlankExactly(c: char)
    ensures Blank(c) <==> WhiteSpace(c)
  {
    assert '\t' as int == 9 && '\r' as int == 13 && ' ' as int == 32;
    assert '\U{1c}' as int == 28 && '\U{1f}' as int == 31;
  }

  ghost predicate Blanks(s: string) {
    forall c :: c in s ==> Blank(c)
  }

  /** `middle` is `s` without the blanks around it. */
  ghost predicate Stripped(s: string, before: string, middle: string, after: string) {
    && s == before + middle + after && Blanks(before) && Blanks(after)
    && (middle != "" ==> !Blank(middle[0]) && !Blank(middle[|middle| - 1]))
  }

  lemma {:induction false} StripLeftSplits(s: string) returns (before: string)
    ensures s == before + StripLeft(s) && Blanks(before)
    ensures StripLeft(s) != "" ==> !Blank(StripLeft(s)[0])
  {
    before := "";
    if s != "" && Blank(s[0]) {
      var rest := StripLeftSplits(s[1..]);
      before := [s[0]] + rest;
    }
  }

  lemma {:induction false} StripRightSplits(s: string) returns (after: string)
    ensures s == StripRight(s) + after && Blanks(after)
    ensures StripRight(s) != "" ==> StripRight(s)[0] == s[0] && !Blank(StripRight(s)[|StripRight(s)| - 1])
  {
    after := "";
    if s != "" && Blank(s[|s| - 1]) {
      var rest := StripRightSplits(s[..|s| - 1]);
      after := rest + [s[|s| - 1]];
      assert s == s[..|s| - 1] + [s[|s| - 1]];
    }
  }

  /** Stripping takes the blanks off both ends, all of them and nothing else. */
  lemma StripExactly(s: string)
    ensures exists before, after :: Stripped(s, before, Strip(s), after)
  {
    var before := StripLeftSplits(s);
    var after := StripRightSplits(StripLeft(s));
    assert s == before + Strip(s) + after;
    assert Stripped(s, before, Strip(s), after);
  }

  lemma {:induction false} StripLeftOf(blanks: string, rest: string)
    requires Blanks(blanks) && (rest != "" ==> !Blank(rest[0]))
    ensures StripLeft(blanks + rest) == rest
  {
    if blanks == "" {
      assert blanks + rest == rest;
    } else {
      StripLeftOf(blanks[1..], rest);
      assert (blanks + rest)[1..] == blanks[1..] + rest;
    }
  }

  lemma {:induction false} StripRightOf(rest: string, blanks: string)
    requires Blanks(blanks) && (rest != "" ==> !Blank(rest[|rest| - 1]))
    ensures StripRight(rest + blanks) == rest
  {
    if blanks == "" {
      assert rest + blanks == rest;
    } else {
      var front := blanks[..|blanks| - 1];
      StripRightOf(rest, front);
      assert (rest + blanks)[..|rest + blanks| - 1] == rest + front;
    }
  }

  /** There is only one way to do that. */
  lemma StripIs(s: string, before: string, middle: string, after: string)
    requires Stripped(s, before, middle, after)
    ensures Strip(s) == middle
  {
    if middle == "" {
      assert s == s + "" == before + after;
      StripLeftOf(s, "");
    } else {
      assert s == before + (middle + after);
      StripLeftOf(before, middle + after);
      StripRightOf(middle, after);
    }
  }

  /** Blanks around a text make no difference. */
  lemma StripIgnoresPadding(s: string, left: string, right: string)
    requires Blanks(left) && Blanks(right)
    ensures Strip(left + s + right) == Strip(s)
  {
    StripExactly(s);
    var a, b :| Stripped(s, a, Strip(s), b);
    assert left + s + right == (left + a) + Strip(s) + (b + right);
    StripIs(left + s + right, left + a, Strip(s), b + right);
  }

  /** Letters become upper case, position by position, and nothing else changes; likewise for lower case. */
  lemma UpperExactly(s: string)
    ensures |Upper(s)| == |s| && |Lower(s)| == |s|
    ensures forall i :: 0 <= i < |s| ==>
              if 'a' <= s[i] <= 'z' then 'A' <= Upper(s)[i] <= 'Z' && Upper(s)[i] - 'A' == s[i] - 'a'
              else Upper(s)[i] == s[i]
    ensures forall i :: 0 <= i < |s| ==>
              if 'A' <= s[i] <= 'Z' then 'a' <= Lower(s)[i] <= 'z' && Lower(s)[i] - 'a' == s[i] - 'A'
              else Lower(s)[i] == s[i]
  {
  }

  lemma UpperConcat(a: string, b: string)
    ensures Upper(a + b) == Upper(a) + Upper(b)
  {
  }

  lemma UpperBlanks(s: string)
    requires Blanks(s)
    ensures Upper(s) == s
  {
    forall i | 0 <= i < |s|
      ensures Upper(s)[i] == s[i]
    {
      assert s[i] in s;
    }
  }

  /** Stripping and changing to upper case go in either order. */
  lemma UpperStripped(s: string)
    ensures Upper(Strip(s)) == Strip(Upper(s))
  {
    StripExactly(s);
    var a, b :| Stripped(s, a, Strip(s), b);
    UpperConcat(a + Strip(s), b);
    UpperConcat(a, Strip(s));
    UpperBlanks(a);
    UpperBlanks(b);
    assert Stripped(Upper(s), a, Upper(Strip(s)), b);
    StripIs(Upper(s), a, Upper(Strip(s)), b);
  }

  predicate SameLetter(c: char, d: char) {
    || c == d
    || ('a' <= c <= 'z' && 'A' <= d <= 'Z' && c - 'a' == d - 'A')
    || ('A' <= c <= 'Z' && 'a' <= d <= 'z' && c - 'A' == d - 'a')
  }

  /** Two texts are the same in upper case exactly when they differ in the case of letters only; so in lower case. */
  lemma SameUpperExactly(s: string, t: string)
    ensures Upper(s) == Upper(t) <==> |s| == |t| && forall i :: 0 <= i < |s| ==> SameLetter(s[i], t[i])
    ensures Lower(s) == Lower(t) <==> |s| == |t| && forall i :: 0 <= i < |s| ==> SameLetter(s[i], t[i])
  {
    if |s| == |t| {
      forall i | 0 <= i < |s|
        ensures Upper(s)[i] == Upper(t)[i] <==> SameLetter(s[i], t[i])
        ensures Lower(s)[i] == Lower(t)[i] <==> SameLetter(s[i], t[i])
      {
      }
    }
  }

  // ----- Decimal numbers -----

  function Decimal(n: nat): (s: string)
    ensures s != "" && forall c :: c in s ==> '0' <= c <= '9'
  {
    var digit := '0' + (n % 10) as char;
    if n < 10 then [digit] else Decimal(n / 10) + [digit]
  }

  function Value(s: string): int {
    if s == "" then 0 else 10 * Value(s[..|s| - 1]) + (s[|s| - 1] as int - '0' as int)
  }

  lemma {:induction false} DecimalValue(n: nat)
    ensures Value(Decimal(n)) == n
  {
    var s := Decimal(n);
    if n < 10 {
      assert s[..|s| - 1] == "";
    } else {
      DecimalValue(n / 10);
      assert s[..|s| - 1] == Decimal(n / 10);
    }
  }

  // ----- Splitting at the first or last occurrence of a separator -----

  function SplitFirst(s: string, sep: char): (parts: Option<(string, string)>)
    ensures parts.Some? <==> sep in s
    ensures parts.Some? ==> s == parts.value.0 + [sep] + parts.value.1 && sep !in parts.value.0
  {
    if s == "" then None
    else if s[0] == sep then Some(("", s[1..]))
    else match SplitFirst(s[1..], sep)
      case None => None
      case Some((a, b)) => Some(([s[0]] + a, b))
  }

  function SplitLast(s: string, sep: char): (parts: Option<(string, string)>)
    ensures parts.Some? <==> sep in s
    ensures parts.Some? ==> s == parts.value.0 + [sep] + parts.value.1 && sep !in parts.value.1
  {
    if s == "" then None
    else
      var last := |s| - 1;
      if s[last] == sep then Some((s[..last], ""))
      else match SplitLast(s[..last], sep)
        case None => None
        case Some((a, b)) => Some((a, b + [s[last]]))
  }

  /** A separator that does not occur in the left part marks the split uniquely. */
  lemma SplitFirstUnique(a: string, b: string, sep: char)
    requires sep !in a
    ensures SplitFirst(a + [sep] + b, sep) == Some((a, b))
  {
    var s := a + [sep] + b;
    assert s[|a|] == sep;
    var (x, y) := SplitFirst(s, sep).value;
    assert s[|x|] == sep && forall i :: 0 <= i < |x| ==> s[i] == x[i];
    assert forall i :: 0 <= i < |a| ==> s[i] == a[i];
    assert |x| == |a|;
    assert x == s[..|x|] && a == s[..|a|];
    assert y == s[|x| + 1..] && b == s[|a| + 1..];
  }

  lemma {:induction false} SplitLastUnique(a: string, b: string, sep: char)
    requires sep !in b
    ensures SplitLast(a + [sep] + b, sep) == Some((a, b))
  {
    var s := a + [sep] + b;
    var last := |s| - 1;
    if b == "" {
      assert s[..last] == a;
    } else {
      var front := b[..|b| - 1];
      assert s[..last] == a + [sep] + front;
      SplitLastUnique(a, front, sep);
      assert b == front + [s[last]];
    }
  }
}
