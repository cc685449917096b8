/** The log shipper: lines read from a growing file, buffered, and submitted in batches with retries. */
module LogShipper {
  import opened Strings
  import opened Lists
  import opened LogLines

  const MAX_BATCH := 500
  const BACKOFF: seq<nat> := [1, 2, 5, 10, 30]
  const ATTEMPTS := 6

  /** How one POST ends.  `Broken` is an error that the retry loop does not catch, such as an unusable response body. */
  datatype Reply = Accepted(processed: Option<int>, threats: Option<int>) | Rejected | Unreachable | Broken

  datatype Outcome = Nothing | Delivered | Dropped | Escaped

  predicate Decisive(r: Reply) {
    r.Accepted? || r.Broken?
  }

  /** The first reply that decides, if one of the six does, is an error that escapes the retries. */
  predicate Escapes(replies: nat -> Reply) {
    exists k: nat :: k < ATTEMPTS && replies(k).Broken? && forall j: nat :: j < k ==> !Decisive(replies(j))
  }

  function Total(delays: seq<nat>): nat {
    if delays == [] then 0 else delays[0] + Total(delays[1..])
  }

  lemma {:induction false} TotalNext(delays: seq<nat>, n: nat)
    requires n < |delays|
    ensures Total(delays[..n + 1]) == Total(delays[..n]) + delays[n]
  {
    if n == 0 {
      assert delays[..1] == [delays[0]] && [delays[0]][1..] == [];
    } else {
      TotalNext(delays[1..], n - 1);
      assert delays[..n + 1][1..] == delays[1..][..n] && delays[..n][1..] == delays[1..][..n - 1];
    }
  }

  lemma WaitsAreShort(n: nat)
    requires n <= |BACKOFF|
    ensures Total(BACKOFF[..n]) <= 48
  {
    TotalNext(BACKOFF, 0);
    TotalNext(BACKOFF, 1);
    TotalNext(BACKOFF, 2);
    TotalNext(BACKOFF, 3);
    TotalNext(BACKOFF, 4);
  }

  // ----- What a turn of the main loop does -----

  datatype Handle = Unopened | Open | Closed

  /** What a turn finds: the log file, if it is there, and the replies to its POSTs. */
  datatype Turn = Turn(file: Option<string>, replies: nat -> Reply)

  /** The shipper's fields, what each read of the file returned, and the batches handed to Ship. */
  datatype State = State(handle: Handle, pos: nat, buffer: seq<string>, chunks: seq<string>,
                         submitted: seq<seq<string>>)

  const START := State(Unopened, 0, [], [], [])

  /** Opens the file at its end, reads what it has gained, or finds it rotated: a file that shrank closes the
      handle, and the reopened one, which starts at the end, is not passed back, so that every later read raises. */
  function AfterPoll(s: State, file: Option<string>): State {
    if file.None? then s
    else
      var text := file.value;
      if s.handle.Unopened? then s.(handle := Open, pos := if s.pos == 0 then |text| else s.pos)
      else if |text| < s.pos then s.(handle := Closed, pos := |text|)
      else if s.handle.Closed? then s
      else
        s.(pos := |text|, buffer := s.buffer + SplitLines(text[s.pos..]), chunks := s.chunks + [text[s.pos..]])
  }

  /** A turn goes on to flush unless the file has never been there, or reading it raises. */
  predicate Flushes(s: State, file: Option<string>) {
    match s.handle
    case Unopened => file.Some?
    case Open => true
    case Closed => file.None? || |file.value| < s.pos
  }

  /** The batch that a turn takes from the buffer. */
  function NextBatch(buffer: seq<string>): seq<string> {
    Take(buffer, MAX_BATCH)
  }

  /** A full batch leaves the buffer before it is shipped, a smaller one only afterwards, so that an error escaping from
      Ship keeps it for the next turn. */
  function AfterFlush(s: State, replies: nat -> Reply): State {
    if s.buffer == [] then s
    else
      var batch := NextBatch(s.buffer);
      s.(submitted := s.submitted + [batch],
         buffer := if |s.buffer| < MAX_BATCH && Escapes(replies) then s.buffer else s.buffer[|batch|..])
  }

  function AfterTurn(s: State, turn: Turn): State {
    var polled := AfterPoll(s, turn.file);
    if Flushes(s, turn.file) then AfterFlush(polled, turn.replies) else polled
  }

  function AfterTurns(s: State, turns: seq<Turn>): State {
    if turns == [] then s else AfterTurn(AfterTurns(s, turns[..|turns| - 1]), turns[|turns| - 1])
  }

  /** The final flush submits whatever is left, in one batch. */
  function AfterRun(s: State, turns: seq<Turn>): State {
    var end := AfterTurns(s, turns);
    if end.buffer == [] then end else end.(submitted := end.submitted + [end.buffer])
  }

  class Shipper {
    var handle: Handle
    var pos: nat
    var buffer: seq<string>
    var linesShipped: int
    var eventsDetected: int
    ghost var chunks: seq<string>
    ghost var submitted: seq<seq<string>>

    constructor ()
      ensures Now() == START && linesShipped == 0 && eventsDetected == 0
    {
      handle, pos, buffer, linesShipped, eventsDetected := Unopened, 0, [], 0, 0;
      chunks, submitted := [], [];
    }

    ghost function Now(): State
      reads this
    {
      State(handle, pos, buffer, chunks, submitted)
    }

    /** POSTs a batch up to six times, with growing waits in between. */
    method Ship(lines: seq<string>, replies: nat -> Reply) returns (outcome: Outcome, attempts: nat, waited: nat)
      modifies `linesShipped, `eventsDetected
      ensures outcome.Nothing? <==> lines == []
      ensures attempts <= 6 && (lines != [] <==> attempts > 0)
      ensures forall k :: 0 <= k < attempts - 1 ==> !Decisive(replies(k))
      ensures outcome.Delivered? <==> attempts > 0 && replies(attempts - 1).Accepted?
      ensures outcome.Escaped? <==> attempts > 0 && replies(attempts - 1).Broken?
      ensures outcome.Escaped? <==> lines != [] && Escapes(replies)
      ensures outcome.Dropped? ==> attempts == 6
      ensures attempts > 0 ==> waited == Total([1, 2, 5, 10, 30][..attempts - 1]) && waited <= 48
      ensures outcome.Delivered? ==>
        var r := replies(attempts - 1);
        && linesShipped == old(linesShipped) + (if r.processed.Some? then r.processed.value else |lines|)
        && eventsDetected == old(eventsDetected) + (if r.threats.Some? then r.threats.value else 0)
      ensures !outcome.Delivered? ==> linesShipped == old(linesShipped) && eventsDetected == old(eventsDetected)
    {
      waited, attempts := 0, 0;
      if lines == [] { return Nothing, 0, 0; }
      while attempts < ATTEMPTS
        invariant attempts <= ATTEMPTS && forall k :: 0 <= k < attempts ==> !Decisive(replies(k))
        invariant waited == Total(BACKOFF[..if attempts < |BACKOFF| then attempts else |BACKOFF|])
        invariant linesShipped == old(linesShipped) && eventsDetected == old(eventsDetected)
      {
        WaitsAreShort(attempts);
        var reply := replies(attempts);
        attempts := attempts + 1;
        match reply {
          case Accepted(processed, threats) =>
            linesShipped := linesShipped + if processed.Some? then processed.value else |lines|;
            eventsDetected := eventsDetected + if threats.Some? then threats.value else 0;
            return Delivered, attempts, waited;
          case Broken =>
            return Escaped, attempts, waited;
          case _ =>
            if attempts <= |BACKOFF| {
              TotalNext(BACKOFF, attempts - 1);
              waited := waited + BACKOFF[attempts - 1];
            }
        }
      }
      WaitsAreShort(|BACKOFF|);
      outcome := Dropped;
    }

    method ReadNewLines(file: string) returns (lines: seq<string>, raised: bool)
      requires !handle.Unopened?
      modifies `handle, `pos, `chunks
      ensures Now() == AfterPoll(old(Now()), Some(file)).(buffer := buffer)
      ensures buffer + lines == AfterPoll(old(Now()), Some(file)).buffer
      ensures raised <==> !Flushes(old(Now()), Some(file))
    {
      assert buffer + [] == buffer;
      if |file| < pos {
        handle, pos := Closed, |file|;
        return [], false;
      }
      if handle.Closed? { return [], true; }
      lines, raised := SplitLines(file[pos..]), false;
      chunks := chunks + [file[pos..]];
      pos := |file|;
    }

    /** The first half of a turn: opens the file, or reads it. */
    method Poll(file: Option<string>) returns (flush: bool)
      modifies `handle, `pos, `buffer, `chunks
      ensures Now() == AfterPoll(old(Now()), file) && flush == Flushes(old(Now()), file)
    {
      if handle.Unopened? {
        if file.None? { return false; }
        if pos == 0 { pos := |file.value|; }
        handle := Open;
        return true;
      }
      if file.None? { return true; }
      var lines, raised := ReadNewLines(file.value);
      buffer := buffer + lines;
      flush := !raised;
    }

    /** The second half: hands the next batch, if there is one, to Ship. */
    method Flush(replies: nat -> Reply) returns (escaped: bool)
      modifies `buffer, `submitted, `linesShipped, `eventsDetected
      ensures Now() == AfterFlush(old(Now()), replies)
      ensures escaped <==> old(buffer) != [] && Escapes(replies)
    {
      escaped := false;
      if |buffer| >= MAX_BATCH {
        var batch := buffer[..MAX_BATCH];
        assert batch == NextBatch(buffer);
        buffer := buffer[MAX_BATCH..];
        submitted := submitted + [batch];
        var outcome, attempts, _ := Ship(batch, replies);
        escaped := outcome.Escaped?;
      } else if buffer != [] {
        submitted := submitted + [buffer];
        var outcome, attempts, _ := Ship(buffer, replies);
        if outcome.Escaped? { return true; }
        buffer := [];
      }
    }

    method TakeTurn(turn: Turn)
      modifies this
      ensures Now() == AfterTurn(old(Now()), turn)
    {
      var flush := Poll(turn.file);
      if flush {
        var escaped := Flush(turn.replies);
      }
    }

    /** The loop until it is stopped, then the final flush. */
    method Run(turns: seq<Turn>, last: nat -> Reply)
      modifies this
      ensures Now() == AfterRun(old(Now()), turns)
    {
      for i := 0 to |turns|
        invariant Now() == AfterTurns(old(Now()), turns[..i])
      {
        assert turns[..i + 1][..i] == turns[..i];
        TakeTurn(turns[i]);
      }
      assert turns[..|turns|] == turns;
      if buffer != [] {
        submitted := submitted + [buffer];
        var outcome, attempts, waited := Ship(buffer, last);
      }
    }
  }
}
