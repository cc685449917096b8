/** Each fault alone lets a client receive a list that misses a finished write or answers another request. */
module EndpointWitness {
  import opened Strings
  import opened EndpointKey
  import opened EndpointCache
  import EndpointFreshness

  ghost predicate AlwaysFresh(f: Faults) {
    forall states, events, i :: IsRun(f, states, events) && 0 <= i < |states| ==> AllFresh(states[i])
  }

  /** Some run ends in `s`. */
  ghost predicate RunTo(f: Faults, s: State) {
    exists states, events :: IsRun(f, states, events) && states[|states| - 1] == s
  }

  lemma StepTo(f: Faults, s: State, e: Event)
    requires RunTo(f, s) && Enabled(f, s, e)
    ensures RunTo(f, Next(f, s, e))
  {
    var states, events :| IsRun(f, states, events) && states[|states| - 1] == s;
    var s' := Next(f, s, e);
    assert IsRun(f, states + [s'], events + [e]);
    assert (states + [s'])[|states + [s']| - 1] == s';
  }

  const EVERYTHING := Query(None, None, None, 200, 0)
  const HOST_NONE := Query(Some(NONE), None, None, 200, 0)
  const ROW := Row(1, "api", "GET", None, "")
  const ACCOUNT: Id := 7

  lemma QuietStart(f: Faults)
    ensures RunTo(f, State(map[], map[], map[], map[], map[], []))
  {
    var s := State(map[], map[], map[], map[], map[], []);
    assert IsRun(f, [s], []) && [s][|[s]| - 1] == s;
  }

  lemma ReadStarts(f: Faults, s: State, r: Id, q: Query)
    requires RunTo(f, s) && r !in s.readers && Valid(q) && (f.keysClash || Clean(q))
    ensures RunTo(f, s.(readers := s.readers[r := Reader(ACCOUNT, q, LookingUp(Version(s, ACCOUNT)), |s.returned|)]))
  {
    StepTo(f, s, BeginRead(r, ACCOUNT, q));
    var s1 := Next(f, s, BeginRead(r, ACCOUNT, q));
    StepTo(f, s1, FetchVersion(r));
    assert s1.readers[r := Reader(ACCOUNT, q, LookingUp(Version(s, ACCOUNT)), |s.returned|)]
        == s.readers[r := Reader(ACCOUNT, q, LookingUp(Version(s, ACCOUNT)), |s.returned|)];
  }

  function NowKey(s: State, q: Query): string {
    Print(Key(ACCOUNT, Version(s, ACCOUNT), q))
  }

  lemma ReaderSteps(f: Faults, s: State, r: Id, reader: Reader, e: Event, stage: ReadStage)
    requires RunTo(f, s.(readers := s.readers[r := reader])) && Enabled(f, s.(readers := s.readers[r := reader]), e)
    requires Next(f, s.(readers := s.readers[r := reader]), e) == Move(s.(readers := s.readers[r := reader]), r, stage)
    ensures RunTo(f, s.(readers := s.readers[r := reader.(stage := stage)]))
  {
    var s1 := s.(readers := s.readers[r := reader]);
    StepTo(f, s1, e);
    assert Move(s1, r, stage) == s.(readers := s.readers[r := reader.(stage := stage)]);
  }

  lemma ReadSelects(f: Faults, s: State, r: Id, q: Query, at: nat)
    requires RunTo(f, s) && r !in s.readers && Valid(q) && (f.keysClash || Clean(q)) && NowKey(s, q) !in s.cache
    requires at < |History(s, ACCOUNT)| && (f.replicasLag || at == |History(s, ACCOUNT)| - 1)
    ensures var answer := Answer(Select(History(s, ACCOUNT)[at], q), at);
            RunTo(f, s.(readers :=
              s.readers[r := Reader(ACCOUNT, q, Filling(Version(s, ACCOUNT), answer), |s.returned|)]))
  {
    var version := Version(s, ACCOUNT);
    var answer := Answer(Select(History(s, ACCOUNT)[at], q), at);
    var reader := Reader(ACCOUNT, q, LookingUp(version), |s.returned|);
    ReadStarts(f, s, r, q);
    ReaderSteps(f, s, r, reader, LookUp(r), Selecting(version));
    ReaderSteps(f, s, r, reader.(stage := Selecting(version)), SelectRows(r, at), Filling(version, answer));
  }

  /** A read that finds nothing cached answers from table `at` and files the rows. */
  lemma ReadMisses(f: Faults, s: State, r: Id, q: Query, at: nat)
    requires RunTo(f, s) && r !in s.readers && Valid(q) && (f.keysClash || Clean(q)) && NowKey(s, q) !in s.cache
    requires at < |History(s, ACCOUNT)| && (f.replicasLag || at == |History(s, ACCOUNT)| - 1)
    ensures var answer := Answer(Select(History(s, ACCOUNT)[at], q), at);
            RunTo(f, s.(readers := s.readers[r := Reader(ACCOUNT, q, Answered(answer), |s.returned|)],
                        cache := s.cache[NowKey(s, q) := answer]))
  {
    ReadSelects(f, s, r, q, at);
    var version := Version(s, ACCOUNT);
    var answer := Answer(Select(History(s, ACCOUNT)[at], q), at);
    var reader := Reader(ACCOUNT, q, Filling(version, answer), |s.returned|);
    var s1 := s.(readers := s.readers[r := reader]);
    StepTo(f, s1, Fill(r));
    assert Next(f, s1, Fill(r)) == s.(readers := s.readers[r := reader.(stage := Answered(answer))],
                                      cache := s.cache[NowKey(s, q) := answer]);
  }

  lemma ReadHits(f: Faults, s: State, r: Id, q: Query)
    requires RunTo(f, s) && r !in s.readers && Valid(q) && (f.keysClash || Clean(q)) && NowKey(s, q) in s.cache
    ensures RunTo(f, s.(readers := s.readers[r := Reader(ACCOUNT, q, Answered(s.cache[NowKey(s, q)]), |s.returned|)]))
  {
    var reader := Reader(ACCOUNT, q, LookingUp(Version(s, ACCOUNT)), |s.returned|);
    ReadStarts(f, s, r, q);
    var s1 := s.(readers := s.readers[r := reader]);
    StepTo(f, s1, LookUp(r));
    assert Next(f, s1, LookUp(r)) == s.(readers := s.readers[r := reader.(stage := Answered(s.cache[NowKey(s, q)]))]);
  }

  function Created(s: State): State {
    var tables := History(s, ACCOUNT);
    s.(history := s.history[ACCOUNT := tables + [Apply(tables[|tables| - 1], Create(ROW, 0))]])
  }

  lemma WriteStarts(f: Faults, s: State)
    requires RunTo(f, s) && s.writers == map[]
    ensures RunTo(f, s.(writers := map[0 := Writer(ACCOUNT, Create(ROW, 0), Committing)]))
  {
    var e := BeginWrite(0, ACCOUNT, Create(ROW, 0));
    StepTo(f, s, e);
    assert Next(f, s, e).writers == map[0 := Writer(ACCOUNT, Create(ROW, 0), Committing)];
  }

  lemma WriteCommits(f: Faults, s: State)
    requires RunTo(f, s) && s.writers == map[]
    ensures RunTo(f, Created(s).(writers := map[0 := Writer(ACCOUNT, Create(ROW, 0), Bumping(|History(s, ACCOUNT)|))]))
  {
    WriteStarts(f, s);
    var s1 := s.(writers := map[0 := Writer(ACCOUNT, Create(ROW, 0), Committing)]);
    StepTo(f, s1, Commit(0));
    assert Next(f, s1, Commit(0)).writers == map[0 := Writer(ACCOUNT, Create(ROW, 0), Bumping(|History(s, ACCOUNT)|))];
  }

  /** The state after a create has committed and returned, its bump having worked or failed. */
  function Wrote(s: State, bumped: bool): State {
    var version := Version(s, ACCOUNT) + if bumped then 1 else 0;
    Created(s).(versions := if bumped then s.versions[ACCOUNT := version] else s.versions,
                returned := s.returned + [Return(ACCOUNT, |History(s, ACCOUNT)|, version)])
  }

  lemma WriteReturns(f: Faults, s: State, bumped: bool)
    requires RunTo(f, s) && s.writers == map[] && (bumped || f.bumpsFail)
    ensures RunTo(f, Wrote(s, bumped))
  {
    WriteCommits(f, s);
    var s1 := Created(s).(writers := map[0 := Writer(ACCOUNT, Create(ROW, 0), Bumping(|History(s, ACCOUNT)|))]);
    var last := if bumped then Bump(0) else BumpFails(0);
    StepTo(f, s1, last);
    assert s1.writers - {0} == map[];
    assert Next(f, s1, last) == Wrote(s, bumped);
  }

  lemma NotFresh(f: Faults, s: State, r: Id)
    requires RunTo(f, s) && r in s.readers && s.readers[r].stage.Answered?
              && !Fresh(s, s.readers[r], s.readers[r].stage.answer)
    ensures !AlwaysFresh(f)
  {
    var states, events :| IsRun(f, states, events) && states[|states| - 1] == s;
    assert !AllFresh(states[|states| - 1]);
  }

  /** Once the empty list is cached, a write that does not change the version stays invisible. */
  lemma StaleHit(f: Faults, s: State)
    requires RunTo(f, s) && 2 !in s.readers && NowKey(s, EVERYTHING) in s.cache
    requires |s.returned| > 0 && s.returned[|s.returned| - 1].account == ACCOUNT
    requires s.cache[NowKey(s, EVERYTHING)].at < s.returned[|s.returned| - 1].at
    ensures !AlwaysFresh(f)
  {
    ReadHits(f, s, 2, EVERYTHING);
    Outdated(f, s, s.cache[NowKey(s, EVERYTHING)]);
  }

  const EMPTY := State(map[], map[], map[], map[], map[], [])

  /** The state after reader `r` has missed the cache and been answered from the latest table. */
  function Missed(s: State, r: Id, q: Query, at: nat): State
    requires at < |History(s, ACCOUNT)|
  {
    var answer := Answer(Select(History(s, ACCOUNT)[at], q), at);
    s.(readers := s.readers[r := Reader(ACCOUNT, q, Answered(answer), |s.returned|)],
       cache := s.cache[NowKey(s, q) := answer])
  }

  lemma FailedBumpIsUnsafe(f: Faults)
    requires f.bumpsFail
    ensures !AlwaysFresh(f)
  {
    QuietStart(f);
    ReadMisses(f, EMPTY, 1, EVERYTHING, 0);
    var s := Missed(EMPTY, 1, EVERYTHING, 0);
    WriteReturns(f, s, false);
    StaleHit(f, Wrote(s, false));
  }

  /** A list is cached under version 1; then the counter expires. */
  lemma CountsFromZeroAgain(f: Faults)
    requires f.versionsExpire
    ensures var s := Missed(Wrote(EMPTY, true), 1, EVERYTHING, 1); RunTo(f, s.(versions := s.versions - {ACCOUNT}))
  {
    QuietStart(f);
    WriteReturns(f, EMPTY, true);
    var s := Wrote(EMPTY, true);
    ReadMisses(f, s, 1, EVERYTHING, 1);
    Expires(f, Missed(s, 1, EVERYTHING, 1));
  }

  lemma Expires(f: Faults, s: State)
    requires RunTo(f, s) && f.versionsExpire
    ensures RunTo(f, s.(versions := s.versions - {ACCOUNT}))
  {
    StepTo(f, s, ExpireVersion(ACCOUNT));
  }

  /** The next bump reaches version 1 again, under which the old list is still cached. */
  lemma ExpiredVersionIsUnsafe(f: Faults)
    requires f.versionsExpire
    ensures !AlwaysFresh(f)
  {
    CountsFromZeroAgain(f);
    var s, s1 := Wrote(EMPTY, true), Missed(Wrote(EMPTY, true), 1, EVERYTHING, 1);
    var s2 := s1.(versions := s1.versions - {ACCOUNT});
    WriteReturns(f, s2, true);
    var s3 := Wrote(s2, true);
    assert Version(s, ACCOUNT) == 1 && Version(s3, ACCOUNT) == 1;
    assert |History(s, ACCOUNT)| == 2 && History(s2, ACCOUNT) == History(s, ACCOUNT);
    StaleHit(f, s3);
  }

  /** The read of a version fails and is taken for version 0, under which an old list is still cached. */
  lemma MisledReadHits(f: Faults, s: State, r: Id, q: Query)
    requires RunTo(f, s) && f.cacheReturns && r !in s.readers && Clean(q) && Print(Key(ACCOUNT, 0, q)) in s.cache
    ensures RunTo(f, s.(readers :=
              s.readers[r := Reader(ACCOUNT, q, Answered(s.cache[Print(Key(ACCOUNT, 0, q))]), |s.returned|)]))
  {
    StepTo(f, s, BeginRead(r, ACCOUNT, q));
    var s1 := Next(f, s, BeginRead(r, ACCOUNT, q));
    StepTo(f, s1, FetchMisled(r));
    var reader := Reader(ACCOUNT, q, LookingUp(0), |s.returned|);
    assert s1.readers[r := reader] == s.readers[r := reader];
    ReaderSteps(f, s, r, reader, LookUp(r), Answered(s.cache[Print(Key(ACCOUNT, 0, q))]));
  }

  lemma MisledReadIsUnsafe(f: Faults)
    requires f.cacheReturns
    ensures !AlwaysFresh(f)
  {
    QuietStart(f);
    ReadMisses(f, EMPTY, 1, EVERYTHING, 0);
    var s := Missed(EMPTY, 1, EVERYTHING, 0);
    WriteReturns(f, s, true);
    var s1 := Wrote(s, true);
    var key := Print(Key(ACCOUNT, 0, EVERYTHING));
    assert key in s1.cache && s1.cache[key].at == 0;
    MisledReadHits(f, s1, 2, EVERYTHING);
    Outdated(f, s1, s1.cache[key]);
  }

  /** An answer older than the last finished write is not fresh. */
  lemma Outdated(f: Faults, s: State, answer: Answer)
    requires |s.returned| > 0 && s.returned[|s.returned| - 1].account == ACCOUNT
              && answer.at < s.returned[|s.returned| - 1].at
    requires RunTo(f, s.(readers := s.readers[2 := Reader(ACCOUNT, EVERYTHING, Answered(answer), |s.returned|)]))
    ensures !AlwaysFresh(f)
  {
    var reader := Reader(ACCOUNT, EVERYTHING, Answered(answer), |s.returned|);
    var s' := s.(readers := s.readers[2 := reader]);
    assert s'.returned[reader.seen - 1].at > answer.at;
    NotFresh(f, s', 2);
  }

  lemma LaggingReplicaIsUnsafe(f: Faults)
    requires f.replicasLag
    ensures !AlwaysFresh(f)
  {
    QuietStart(f);
    WriteReturns(f, EMPTY, true);
    var s := Wrote(EMPTY, true);
    ReadMisses(f, s, 1, EVERYTHING, 0);
    var s1 := Missed(s, 1, EVERYTHING, 0);
    assert s1.returned[0].at > s1.readers[1].stage.answer.at;
    NotFresh(f, s1, 1);
  }

  /** A request for the host None is answered with the cached list of every host. */
  lemma ClashingKeyIsUnsafe(f: Faults)
    requires f.keysClash
    ensures !AlwaysFresh(f)
  {
    QuietStart(f);
    WriteReturns(f, EMPTY, true);
    var s := Wrote(EMPTY, true);
    var table := History(s, ACCOUNT)[1];
    OneRowTable();
    ReadMisses(f, s, 1, EVERYTHING, 1);
    var s1 := Missed(s, 1, EVERYTHING, 1);
    assert NowKey(s1, HOST_NONE) == NowKey(s1, EVERYTHING) == NowKey(s, EVERYTHING);
    ReadHits(f, s1, 2, HOST_NONE);
    var answer := Answer(Select(table, EVERYTHING), 1);
    var s2 := s1.(readers := s1.readers[2 := Reader(ACCOUNT, HOST_NONE, Answered(answer), 1)]);
    NotFresh(f, s2, 2);
  }

  lemma OneRowTable()
    ensures var table := Apply([], Create(ROW, 0));
            |Select(table, EVERYTHING)| == 1 && Select(table, HOST_NONE) == []
  {
    var table := Apply([], Create(ROW, 0));
    assert |table| == 1 && table[0].host == "api" && table[1..] == [];
    assert Filter(table, EVERYTHING) == [table[0]];
    assert "api" != NONE;
    assert Filter(table, HOST_NONE) == [];
  }

  /** Every list response of every run is fresh exactly when none of the five faults can happen. */
  lemma FreshExactlyWithoutFaults(f: Faults)
    ensures AlwaysFresh(f) <==> f == NO_FAULTS
  {
    if f == NO_FAULTS {
      forall states, events, i | IsRun(f, states, events) && 0 <= i < |states|
        ensures AllFresh(states[i])
      {
        EndpointFreshness.ResponsesAreFresh(states, events, i);
      }
    } else if f.bumpsFail {
      FailedBumpIsUnsafe(f);
    } else if f.versionsExpire {
      ExpiredVersionIsUnsafe(f);
    } else if f.replicasLag {
      LaggingReplicaIsUnsafe(f);
    } else if f.cacheReturns {
      MisledReadIsUnsafe(f);
    } else {
      ClashingKeyIsUnsafe(f);
    }
  }
}
