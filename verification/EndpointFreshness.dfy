/** Freshness of every list response, in every run without faults. */
module EndpointFreshness {
  import opened Strings
  import opened EndpointKey
  import opened EndpointCache

  /** Rows filed under `version` were selected late enough: after
      every write that returned at that version or earlier. */
  ghost predicate Current(s: State, account: Id, query: Query, version: nat, answer: Answer) {
    var tables := History(s, account);
    && answer.at < |tables|
    && answer.rows == Select(tables[answer.at], query)
    && forall j :: 0 <= j < |s.returned| && s.returned[j].account == account && s.returned[j].version <= version ==>
         s.returned[j].at <= answer.at
  }

  ghost predicate ReturnsOk(s: State) {
    forall j :: 0 <= j < |s.returned| ==>
      && s.returned[j].at < |History(s, s.returned[j].account)|
      && s.returned[j].version <= Version(s, s.returned[j].account)
  }

  ghost predicate WritersOk(s: State) {
    forall w :: w in s.writers && s.writers[w].stage.Bumping? ==>
      s.writers[w].stage.at < |History(s, s.writers[w].account)|
  }

  /** Every write the reader must reflect returned at the reader's version or earlier. */
  ghost predicate Covers(s: State, reader: Reader, version: nat) {
    && version <= Version(s, reader.account)
    && reader.seen <= |s.returned|
    && forall j :: 0 <= j < reader.seen && s.returned[j].account == reader.account ==> s.returned[j].version <= version
  }

  ghost predicate ReaderOk(s: State, reader: Reader) {
    && Clean(reader.query)
    && reader.seen <= |s.returned|
    && match reader.stage
       case Fetching => true
       case LookingUp(version) => Covers(s, reader, version)
       case Selecting(version) => version <= Version(s, reader.account)
       case Filling(version, answer) =>
         Current(s, reader.account, reader.query, version, answer) && Fresh(s, reader, answer)
         && version <= Version(s, reader.account)
       case Answered(answer) => Fresh(s, reader, answer)
  }

  ghost predicate EntryOk(s: State, k: Key) {
    Clean(k.query) && Print(k) in s.cache ==>
      && k.version <= Version(s, k.account)
      && Current(s, k.account, k.query, k.version, s.cache[Print(k)])
  }

  ghost predicate Inv(s: State) {
    && ReturnsOk(s)
    && WritersOk(s)
    && (forall r :: r in s.readers ==> ReaderOk(s, s.readers[r]))
    && (forall k: Key :: EntryOk(s, k))
  }

  // ----- What may change while answers stay current -----

  /** Tables are only appended, versions only grow, and a new return carries a version nobody has read yet. */
  ghost predicate Grows(s: State, s': State) {
    && (forall account :: |History(s, account)| <= |History(s', account)|
                          && History(s', account)[..|History(s, account)|] == History(s, account))
    && (forall account :: Version(s, account) <= Version(s', account))
    && |s.returned| <= |s'.returned|
    && s'.returned[..|s.returned|] == s.returned
    && (forall j :: |s.returned| <= j < |s'.returned| ==> s'.returned[j].version > Version(s, s'.returned[j].account))
  }

  lemma ReaderStaysOk(s: State, s': State, reader: Reader)
    requires Grows(s, s') && ReaderOk(s, reader)
    ensures ReaderOk(s', reader)
  {
    assert forall j :: 0 <= j < |s.returned| ==> s'.returned[j] == s.returned[j];
    var tables, tables' := History(s, reader.account), History(s', reader.account);
    assert forall i :: 0 <= i < |tables| ==> tables'[i] == tables[i];
  }

  lemma EntryStaysOk(s: State, s': State, k: Key)
    requires Grows(s, s') && EntryOk(s, k) && Print(k) in s.cache && Print(k) in s'.cache
    requires s'.cache[Print(k)] == s.cache[Print(k)]
    ensures EntryOk(s', k)
  {
    assert forall j :: 0 <= j < |s.returned| ==> s'.returned[j] == s.returned[j];
    var tables, tables' := History(s, k.account), History(s', k.account);
    assert forall i :: 0 <= i < |tables| ==> tables'[i] == tables[i];
  }

  lemma OthersStayOk(s: State, s': State)
    requires Inv(s) && Grows(s, s')
    requires forall key :: key in s'.cache ==> key in s.cache && s'.cache[key] == s.cache[key]
    requires forall r :: r in s'.readers ==> r in s.readers && s'.readers[r] == s.readers[r]
    ensures forall r :: r in s'.readers ==> ReaderOk(s', s'.readers[r])
    ensures forall k: Key :: EntryOk(s', k)
  {
    forall r | r in s'.readers
      ensures ReaderOk(s', s'.readers[r])
    {
      ReaderStaysOk(s, s', s.readers[r]);
    }
    forall k: Key
      ensures EntryOk(s', k)
    {
      assert EntryOk(s, k);
      if Print(k) in s'.cache { EntryStaysOk(s, s', k); }
    }
  }

  // ----- Each step -----

  lemma ReaderMoves(s: State, r: Id, reader: Reader)
    requires Inv(s) && ReaderOk(s, reader)
    ensures Inv(s.(readers := s.readers[r := reader]))
  {
    var s' := s.(readers := s.readers[r := reader]);
    assert Grows(s, s');
    forall q | q in s'.readers
      ensures ReaderOk(s', s'.readers[q])
    {
      if q != r { ReaderStaysOk(s, s', s.readers[q]); } else { ReaderStaysOk(s, s', reader); }
    }
    forall k: Key
      ensures EntryOk(s', k)
    {
      assert EntryOk(s, k);
    }
  }

  lemma LookUpOk(s: State, r: Id)
    requires Inv(s) && Enabled(NO_FAULTS, s, LookUp(r))
    ensures Inv(Next(NO_FAULTS, s, LookUp(r)))
  {
    var reader := s.readers[r];
    var version := reader.stage.version;
    var k := Key(reader.account, version, reader.query);
    assert ReaderOk(s, reader) && EntryOk(s, k);
    if Print(k) in s.cache {
      ReaderMoves(s, r, reader.(stage := Answered(s.cache[Print(k)])));
    } else {
      ReaderMoves(s, r, reader.(stage := Selecting(version)));
    }
  }

  lemma SelectOk(s: State, r: Id, at: nat)
    requires Inv(s) && Enabled(NO_FAULTS, s, SelectRows(r, at))
    ensures Inv(Next(NO_FAULTS, s, SelectRows(r, at)))
  {
    var reader := s.readers[r];
    assert ReaderOk(s, reader);
    var rows := Select(History(s, reader.account)[at], reader.query);
    assert forall j :: 0 <= j < |s.returned| && s.returned[j].account == reader.account ==> s.returned[j].at <= at;
    ReaderMoves(s, r, reader.(stage := Filling(reader.stage.version, Answer(rows, at))));
  }

  /** Filing current rows under their own key disturbs no other key. */
  lemma EntryFiled(s: State, mine: Key, answer: Answer)
    requires Inv(s) && Clean(mine.query) && mine.version <= Version(s, mine.account)
    requires Current(s, mine.account, mine.query, mine.version, answer)
    ensures Inv(s.(cache := s.cache[Print(mine) := answer]))
  {
    var s' := s.(cache := s.cache[Print(mine) := answer]);
    forall k: Key
      ensures EntryOk(s', k)
    {
      assert EntryOk(s, k);
      if Clean(k.query) && Print(k) == Print(mine) {
        CleanKeysDiffer(k, mine);
      }
    }
    assert Grows(s, s');
    forall q | q in s'.readers
      ensures ReaderOk(s', s'.readers[q])
    {
      ReaderStaysOk(s, s', s.readers[q]);
    }
  }

  lemma FillOk(s: State, r: Id)
    requires Inv(s) && Enabled(NO_FAULTS, s, Fill(r))
    ensures Inv(Next(NO_FAULTS, s, Fill(r)))
  {
    var reader := s.readers[r];
    assert ReaderOk(s, reader);
    var answer := reader.stage.answer;
    EntryFiled(s, Key(reader.account, reader.stage.version, reader.query), answer);
    var filed := s.(cache := s.cache[KeyOf(reader, reader.stage.version) := answer]);
    assert ReaderOk(filed, reader);
    ReaderMoves(filed, r, reader.(stage := Answered(answer)));
  }

  lemma CommitOk(s: State, w: Id)
    requires Inv(s) && Enabled(NO_FAULTS, s, Commit(w))
    ensures Inv(Next(NO_FAULTS, s, Commit(w)))
  {
    var s' := Next(NO_FAULTS, s, Commit(w));
    CommitGrows(s, w);
    OthersStayOk(s, s');
    forall v | v in s'.writers && s'.writers[v].stage.Bumping?
      ensures s'.writers[v].stage.at < |History(s', s'.writers[v].account)|
    {
      if v != w { assert s'.writers[v] == s.writers[v]; }
    }
  }

  lemma CommitGrows(s: State, w: Id)
    requires w in s.writers
    ensures Grows(s, Committed(s, w))
    ensures Committed(s, w).readers == s.readers && Committed(s, w).cache == s.cache
    ensures Committed(s, w).versions == s.versions && Committed(s, w).returned == s.returned
  {
    var s' := Committed(s, w);
    var account := s.writers[w].account;
    forall other
      ensures |History(s, other)| <= |History(s', other)|
                && History(s', other)[..|History(s, other)|] == History(s, other)
    {
      if other != account { assert History(s', other) == History(s, other); }
    }
  }

  lemma BumpOk(s: State, w: Id)
    requires Inv(s) && Enabled(NO_FAULTS, s, Bump(w))
    ensures Inv(Next(NO_FAULTS, s, Bump(w)))
  {
    var s' := Next(NO_FAULTS, s, Bump(w));
    assert forall account :: History(s', account) == History(s, account);
    assert Grows(s, s');
    OthersStayOk(s, s');
  }

  lemma SmallStepOk(s: State, e: Event)
    requires Inv(s) && Enabled(NO_FAULTS, s, e) && (e.BeginWrite? || e.Evict?)
    ensures Inv(Next(NO_FAULTS, s, e))
  {
    var s' := Next(NO_FAULTS, s, e);
    assert Grows(s, s');
    OthersStayOk(s, s');
  }

  lemma NextInv(s: State, e: Event)
    requires Inv(s) && Enabled(NO_FAULTS, s, e)
    ensures Inv(Next(NO_FAULTS, s, e))
  {
    match e
    case BeginRead(r, account, query) => ReaderMoves(s, r, Reader(account, query, Fetching, 0));
    case FetchVersion(r) =>
      assert ReaderOk(s, s.readers[r]);
      ReaderMoves(s, r, s.readers[r].(stage := LookingUp(Version(s, s.readers[r].account)), seen := |s.returned|));
    case FetchFails(r) =>
      assert ReaderOk(s, s.readers[r]);
      ReaderMoves(s, r, s.readers[r].(stage := Selecting(0), seen := |s.returned|));
    case LookUp(r) => LookUpOk(s, r);
    case LookUpFails(r) =>
      assert ReaderOk(s, s.readers[r]);
      ReaderMoves(s, r, s.readers[r].(stage := Selecting(s.readers[r].stage.version)));
    case SelectRows(r, at) => SelectOk(s, r, at);
    case Fill(r) => FillOk(s, r);
    case FillFails(r) =>
      assert ReaderOk(s, s.readers[r]);
      ReaderMoves(s, r, s.readers[r].(stage := Answered(s.readers[r].stage.answer)));
    case Commit(w) => CommitOk(s, w);
    case Bump(w) => BumpOk(s, w);
    case BeginWrite(_, _, _) => SmallStepOk(s, e);
    case Evict(_) => SmallStepOk(s, e);
  }

  lemma {:induction false} RunInv(states: seq<State>, events: seq<Event>, i: nat)
    requires IsRun(NO_FAULTS, states, events) && i < |states|
    ensures Inv(states[i])
  {
    if i > 0 {
      RunInv(states, events, i - 1);
      NextInv(states[i - 1], events[i - 1]);
    }
  }

  /** Every list response of every fault-free run is fresh. */
  lemma ResponsesAreFresh(states: seq<State>, events: seq<Event>, i: nat)
    requires IsRun(NO_FAULTS, states, events) && i < |states|
    ensures AllFresh(states[i])
  {
    RunInv(states, events, i);
    assert forall r :: r in states[i].readers ==> ReaderOk(states[i], states[i].readers[r]);
  }
}
