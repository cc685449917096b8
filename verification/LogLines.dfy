/** Splitting a growing text into lines, chunk by chunk. */
module LogLines {
  import opened Strings
  import opened Lists

  /** The lines of a text; what follows the last newline is a line of its own. */
  function SplitLines(s: string): seq<string>
    decreases |s|
  {
    if s == "" then []
    else
      match SplitFirst(s, '\n')
      case None => [s]
      case Some((a, b)) => [a] + SplitLines(b)
  }

  /** The lines with a newline after each. */
  function Ended(lines: seq<string>): string {
    if lines == [] then "" else lines[0] + "\n" + Ended(lines[1..])
  }

  /** No line has a newline in it, and the lines with their newlines are the text, or the text and a last newline. */
  lemma {:induction false} LinesExactly(s: string)
    ensures forall line :: line in SplitLines(s) ==> '\n' !in line
    ensures Ended(SplitLines(s)) == if s == "" || s[|s| - 1] == '\n' then s else s + "\n"
    decreases |s|
  {
    if s != "" {
      if '\n' in s {
        var (a, b) := SplitFirst(s, '\n').value;
        LinesExactly(b);
        assert SplitLines(s)[1..] == SplitLines(b);
        assert s == a + "\n" + b;
        assert b != "" ==> s[|s| - 1] == b[|b| - 1];
        assert b == "" ==> s[|s| - 1] == '\n';
        assert a + "\n" + (b + "\n") == s + "\n";
      } else {
        assert SplitLines(s)[1..] == [];
        assert s[|s| - 1] in s;
        assert s + "\n" + "" == s + "\n";
      }
    }
  }

  /** Reading up to here cuts a line in two. */
  predicate Torn(x: string, y: string) {
    x != "" && y != "" && x[|x| - 1] != '\n'
  }

  lemma {:induction false} LinesOfConcat(x: string, y: string)
    ensures |SplitLines(x)| + |SplitLines(y)| == |SplitLines(x + y)| + if Torn(x, y) then 1 else 0
    ensures !Torn(x, y) ==> SplitLines(x) + SplitLines(y) == SplitLines(x + y)
    decreases |x|
  {
    if x == "" {
      assert x + y == y;
    } else if y == "" {
      assert x + y == x;
    } else if '\n' in x {
      var (a, b) := SplitFirst(x, '\n').value;
      assert x + y == a + ['\n'] + (b + y);
      SplitFirstUnique(a, b + y, '\n');
      LinesOfConcat(b, y);
      if b != "" {
        assert b[|b| - 1] == x[|x| - 1];
      } else {
        assert x[|x| - 1] == '\n';
      }
    } else {
      UnfinishedLine(x, y);
    }
  }

  lemma UnfinishedLine(x: string, y: string)
    requires x != "" && y != "" && '\n' !in x
    ensures |SplitLines(x + y)| == |SplitLines(y)| && |SplitLines(x)| == 1 && Torn(x, y)
  {
    assert x[|x| - 1] in x;
    if '\n' in y {
      var (c, d) := SplitFirst(y, '\n').value;
      assert x + y == (x + c) + ['\n'] + d;
      SplitFirstUnique(x + c, d, '\n');
    }
  }

  ghost function Whole(chunks: seq<string>): string {
    if chunks == [] then "" else Whole(chunks[..|chunks| - 1]) + chunks[|chunks| - 1]
  }

  /** The lines that reading chunk by chunk yields. */
  ghost function LinesRead(chunks: seq<string>): seq<string> {
    if chunks == [] then [] else LinesRead(chunks[..|chunks| - 1]) + SplitLines(chunks[|chunks| - 1])
  }

  ghost function TornCount(chunks: seq<string>): nat {
    if chunks == [] then 0
    else
      var before, last := chunks[..|chunks| - 1], chunks[|chunks| - 1];
      TornCount(before) + if Torn(Whole(before), last) then 1 else 0
  }

  lemma LinesReadNext(chunks: seq<string>, chunk: string)
    ensures LinesRead(chunks + [chunk]) == LinesRead(chunks) + SplitLines(chunk)
  {
    assert (chunks + [chunk])[..|chunks|] == chunks;
  }

  lemma {:induction false} LinesReadCount(chunks: seq<string>)
    ensures |LinesRead(chunks)| == |SplitLines(Whole(chunks))| + TornCount(chunks)
    ensures TornCount(chunks) == 0 ==> LinesRead(chunks) == SplitLines(Whole(chunks))
  {
    if chunks != [] {
      LinesReadCount(chunks[..|chunks| - 1]);
      LinesOfConcat(Whole(chunks[..|chunks| - 1]), chunks[|chunks| - 1]);
    }
  }

  /** Reading chunk by chunk yields the lines of the text exactly when
      no chunk ends in the middle of a line that goes on. */
  lemma ChunksReadWholeLinesExactly(chunks: seq<string>)
    ensures LinesRead(chunks) == SplitLines(Whole(chunks)) <==> TornCount(chunks) == 0
  {
    LinesReadCount(chunks);
  }

  /** A line that is read in two parts becomes two lines. */
  lemma TornLine()
    ensures LinesRead(["a", "b"]) == ["a", "b"] && SplitLines(Whole(["a", "b"])) == ["ab"]
  {
    var chunks: seq<string> := ["a", "b"];
    assert chunks[..1] == ["a"] && ["a"][..0] == [];
    assert LinesRead(["a"]) == ["a"] && Whole(["a"]) == "a";
    assert Whole(chunks) == "ab";
  }
}
