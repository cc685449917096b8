/** What a whole run of the log shipper submits, against what the file gained. */
module LogConservation {
  import opened Strings
  import opened Lists
  import opened LogLines
  import opened LogShipper

  /** The turn submits a small batch from which an error escapes, so that the batch stays in the buffer. */
  predicate Keeps(s: State, turn: Turn) {
    var polled := AfterPoll(s, turn.file);
    Flushes(s, turn.file) && 0 < |polled.buffer| < MAX_BATCH && Escapes(turn.replies)
  }

  /** Turn `n` of the run does. */
  predicate KeepsAt(turns: seq<Turn>, n: nat) {
    n < |turns| && Keeps(AfterTurns(START, turns[..n]), turns[n])
  }

  /** The lines that turn `n` submits and keeps. */
  function KeptLines(turns: seq<Turn>, n: nat): (lines: nat)
    ensures lines > 0 <==> KeepsAt(turns, n)
  {
    if KeepsAt(turns, n) then |AfterPoll(AfterTurns(START, turns[..n]), turns[n].file).buffer| else 0
  }

  function Sum(f: nat -> nat, n: nat): nat {
    if n == 0 then 0 else Sum(f, n - 1) + f(n - 1)
  }

  lemma {:induction false} ZeroSum(f: nat -> nat, p: nat -> bool, n: nat)
    requires forall i :: f(i) > 0 <==> p(i)
    ensures Sum(f, n) == 0 <==> forall i: nat :: i < n ==> !p(i)
  {
    if n > 0 { ZeroSum(f, p, n - 1); }
  }

  function Kept(turns: seq<Turn>): nat -> nat {
    i => KeptLines(turns, i)
  }

  /** The lines kept after being submitted, over the first `n` turns. */
  function Repeats(turns: seq<Turn>, n: nat): nat {
    Sum(Kept(turns), n)
  }

  lemma NoRepeatsExactly(turns: seq<Turn>)
    ensures Repeats(turns, |turns|) == 0 <==> forall n: nat :: n < |turns| ==> !KeepsAt(turns, n)
  {
    var keeps := (i: nat) => KeepsAt(turns, i);
    assert forall i: nat :: Kept(turns)(i) > 0 <==> keeps(i);
    ZeroSum(Kept(turns), keeps, |turns|);
    assert forall i: nat :: keeps(i) == KeepsAt(turns, i);
  }

  /** Nothing read is lost: as many lines were submitted or are buffered as were read, but for the repeats, and without
      repeats they are the same lines in the same order. */
  ghost predicate Conserved(s: State, repeats: nat) {
    && |Flatten(s.submitted)| + |s.buffer| == |LinesRead(s.chunks)| + repeats
    && (repeats == 0 ==> Flatten(s.submitted) + s.buffer == LinesRead(s.chunks))
  }

  lemma PollConserves(s: State, file: Option<string>, repeats: nat)
    requires Conserved(s, repeats)
    ensures Conserved(AfterPoll(s, file), repeats)
  {
    var polled := AfterPoll(s, file);
    if polled.chunks != s.chunks {
      var chunk := file.value[s.pos..];
      LinesReadNext(s.chunks, chunk);
      Regroup(Flatten(s.submitted), s.buffer, SplitLines(chunk));
    }
  }

  lemma FlushConserves(s: State, replies: nat -> Reply, repeats: nat)
    requires Conserved(s, repeats)
    ensures Conserved(AfterFlush(s, replies),
                      repeats + if 0 < |s.buffer| < MAX_BATCH && Escapes(replies) then |s.buffer| else 0)
  {
    if s.buffer != [] {
      var batch := NextBatch(s.buffer);
      FlattenAppend(s.submitted, batch);
      Regroup(Flatten(s.submitted), batch, s.buffer[|batch|..]);
      assert s.buffer == batch + s.buffer[|batch|..];
    }
  }

  lemma TurnsNext(turns: seq<Turn>, n: nat)
    requires n < |turns|
    ensures AfterTurns(START, turns[..n + 1]) == AfterTurn(AfterTurns(START, turns[..n]), turns[n])
  {
    assert turns[..n + 1][..n] == turns[..n];
  }

  lemma TurnConserves(s: State, turn: Turn, repeats: nat)
    requires Conserved(s, repeats)
    ensures Conserved(AfterTurn(s, turn), repeats + if Keeps(s, turn) then |AfterPoll(s, turn.file).buffer| else 0)
  {
    PollConserves(s, turn.file, repeats);
    if Flushes(s, turn.file) { FlushConserves(AfterPoll(s, turn.file), turn.replies, repeats); }
  }

  lemma {:induction false} TurnsConserve(turns: seq<Turn>, n: nat)
    requires n <= |turns|
    ensures Conserved(AfterTurns(START, turns[..n]), Repeats(turns, n))
  {
    if n > 0 {
      TurnsConserve(turns, n - 1);
      TurnsNext(turns, n - 1);
      TurnConserves(AfterTurns(START, turns[..n - 1]), turns[n - 1], Repeats(turns, n - 1));
    }
  }

  lemma RunCount(turns: seq<Turn>)
    ensures var end := AfterRun(START, turns);
            && |Flatten(end.submitted)| == |LinesRead(end.chunks)| + Repeats(turns, |turns|)
            && (Repeats(turns, |turns|) == 0 ==> Flatten(end.submitted) == LinesRead(end.chunks))
  {
    assert turns[..|turns|] == turns;
    TurnsConserve(turns, |turns|);
    var end := AfterTurns(START, turns);
    FlattenAppend(end.submitted, end.buffer);
    assert Flatten(end.submitted) + [] == Flatten(end.submitted);
  }

  /** Over a whole run with its final flush, what was read is submitted once, completely and
      in order exactly when no turn submits a small batch from which an error escapes. */
  lemma SubmittedOnceExactly(turns: seq<Turn>)
    ensures var end := AfterRun(START, turns);
            Flatten(end.submitted) == LinesRead(end.chunks) <==>
              forall n: nat :: n < |turns| ==> !KeepsAt(turns, n)
  {
    RunCount(turns);
    NoRepeatsExactly(turns);
  }

  /** Every batch submitted before the final flush holds 1 to 500 lines. */
  lemma {:induction false} BatchesAreBounded(turns: seq<Turn>)
    ensures forall batch :: batch in AfterTurns(START, turns).submitted ==> 1 <= |batch| <= 500
  {
    if turns != [] { BatchesAreBounded(turns[..|turns| - 1]); }
  }

  // ----- A file that only grows -----

  /** The texts of the file on the turns that find it. */
  function Seen(turns: seq<Turn>): seq<string> {
    if turns == [] then []
    else
      var last := turns[|turns| - 1];
      Seen(turns[..|turns| - 1]) + if last.file.Some? then [last.file.value] else []
  }

  predicate Growing(texts: seq<string>) {
    forall i :: 0 < i < |texts| ==> texts[i - 1] <= texts[i]
  }

  /** What the file gained since it was opened. */
  function Gained(texts: seq<string>): string
    requires texts != [] && |texts[0]| <= |texts[|texts| - 1]|
  {
    texts[|texts| - 1][|texts[0]|..]
  }

  lemma {:induction false} GrowingExtends(texts: seq<string>)
    requires texts != [] && Growing(texts)
    ensures texts[0] <= texts[|texts| - 1]
  {
    if |texts| > 1 {
      var n := |texts| - 1;
      GrowingExtends(texts[..n]);
      assert texts[n - 1] <= texts[n];
    }
  }

  /** The shipper has read everything that the file gained. */
  ghost predicate UpToDate(s: State, texts: seq<string>) {
    if texts == [] then s == START
    else
      && s.handle.Open? && s.pos == |texts[|texts| - 1]| && texts[0] <= texts[|texts| - 1]
      && Whole(s.chunks) == Gained(texts)
  }

  lemma ReadsGain(s: State, texts: seq<string>, text: string)
    requires UpToDate(s, texts) && Growing(texts + [text])
    ensures UpToDate(AfterPoll(s, Some(text)), texts + [text])
  {
    var polled := AfterPoll(s, Some(text));
    if texts != [] {
      var was := texts[|texts| - 1];
      assert (texts + [text])[|texts| - 1] <= (texts + [text])[|texts|];
      assert polled.chunks == s.chunks + [text[s.pos..]];
      assert polled.chunks[..|s.chunks|] == s.chunks;
      assert was[|texts[0]|..] + text[|was|..] == text[|texts[0]|..];
    }
  }

  lemma {:induction false} ReadsAllGained(turns: seq<Turn>)
    requires Growing(Seen(turns))
    ensures UpToDate(AfterTurns(START, turns), Seen(turns))
  {
    if turns != [] {
      var before, last := turns[..|turns| - 1], turns[|turns| - 1];
      var texts := Seen(before);
      assert forall i :: 0 <= i < |texts| ==> texts[i] == Seen(turns)[i];
      ReadsAllGained(before);
      TurnUpToDate(AfterTurns(START, before), texts, last);
    }
  }

  lemma TurnUpToDate(s: State, texts: seq<string>, turn: Turn)
    requires UpToDate(s, texts)
    requires turn.file.Some? ==> Growing(texts + [turn.file.value])
    ensures UpToDate(AfterTurn(s, turn), texts + if turn.file.Some? then [turn.file.value] else [])
  {
    if turn.file.Some? {
      ReadsGain(s, texts, turn.file.value);
    } else {
      assert texts + [] == texts;
    }
  }

  /** End to end: when the file only grows, the run submits exactly the lines that it gained since it was opened, once
      and in order, exactly when no read ends inside a line that goes on and no error escapes from a small batch. */
  lemma ShipsWhatTheFileGainedExactly(turns: seq<Turn>)
    requires Growing(Seen(turns)) && Seen(turns) != []
    ensures |Seen(turns)[0]| <= |Seen(turns)[|Seen(turns)| - 1]|
    ensures var end := AfterRun(START, turns);
            Flatten(end.submitted) == SplitLines(Gained(Seen(turns))) <==>
              && TornCount(end.chunks) == 0
              && forall n: nat :: n < |turns| ==> !KeepsAt(turns, n)
  {
    GrowingExtends(Seen(turns));
    ReadsAllGained(turns);
    RunCount(turns);
    NoRepeatsExactly(turns);
    LinesReadCount(AfterRun(START, turns).chunks);
  }

  // ----- A rotated file -----

  /** After a rotation nothing is ever read again. */
  lemma {:induction false} ClosedReadsNothing(s: State, turns: seq<Turn>)
    requires s.handle.Closed?
    ensures AfterTurns(s, turns).handle.Closed? && AfterTurns(s, turns).chunks == s.chunks
  {
    if turns != [] { ClosedReadsNothing(s, turns[..|turns| - 1]); }
  }

  // ----- A run that repeats -----

  const OPENED := Turn(Some(""), _ => Accepted(None, None))
  const BROKEN := Turn(Some("a\n"), _ => Broken)
  const RETRIED := Turn(Some("a\n"), _ => Accepted(None, None))

  lemma OneLine()
    ensures SplitLines("a\n") == ["a"]
  {
    SplitFirstUnique("a", "", '\n');
    assert "a" + ['\n'] + "" == "a\n";
  }

  /** One line arrives; the error of its POST escapes; the next turn submits the line a second time. */
  lemma EscapingErrorRepeatsALine()
    ensures var end := AfterRun(START, [OPENED, BROKEN, RETRIED]);
            end.submitted == [["a"], ["a"]] && LinesRead(end.chunks) == ["a"]
  {
    OneLine();
    var turns := [OPENED, BROKEN, RETRIED];
    assert turns[..2] == [OPENED, BROKEN] && [OPENED, BROKEN][..1] == [OPENED] && [OPENED][..0] == [];
    assert AfterTurns(START, []) == START && AfterPoll(START, Some("")) == START.(handle := Open);
    var s1 := AfterTurns(START, [OPENED]);
    assert s1 == AfterTurn(START, OPENED);
    assert s1 == START.(handle := Open);
    assert "a\n"[0..] == "a\n" && [] + ["a"] == ["a"];
    assert BROKEN.replies(0).Broken?;
    var s2 := AfterTurns(START, [OPENED, BROKEN]);
    assert s2 == State(Open, 2, ["a"], ["a\n"], [["a"]]);
    assert !Escapes(RETRIED.replies);
    assert "a\n"[2..] == "" && ["a"] + [] == ["a"];
    assert AfterTurns(START, turns) == State(Open, 2, [], ["a\n", ""], [["a"], ["a"]]);
    LinesReadNext(["a\n"], "");
    LinesReadNext([], "a\n");
    assert ["a\n"] + [""] == ["a\n", ""] && [] + ["a\n"] == ["a\n"];
  }
}
