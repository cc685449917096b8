/** The versioned cache in front of the endpoint list.

    A reader fetches the account's cache version, looks up a key that contains it, on a miss queries the
    database, and stores the rows under that key.  A writer commits and then bumps the version.  Readers,
    writers, evictions and the faults of Redis and of a read replica interleave operation by operation.
 */
module EndpointCache {
  import opened Strings
  import opened EndpointKey

  type Id = nat

  datatype Row = Row(id: Id, host: string, verb: string, collection: Option<string>, details: string)

  /** An account's endpoints in listing order, last seen first. */
  type Table = seq<Row>

  predicate Matches(row: Row, q: Query) {
    && (q.host.Some? ==> row.host == q.host.value)
    && (q.verb.Some? ==> row.verb == Upper(q.verb.value))
    && (q.collection.Some? ==> row.collection == q.collection)
  }

  function Filter(table: Table, q: Query): Table {
    if table == [] then []
    else if Matches(table[0], q) then [table[0]] + Filter(table[1..], q)
    else Filter(table[1..], q)
  }

  function Page(table: Table, offset: nat, limit: nat): Table {
    if |table| <= offset then []
    else if |table| - offset <= limit then table[offset..]
    else table[offset..offset + limit]
  }

  /** The rows a list request selects from a table. */
  function Select(table: Table, q: Query): Table {
    Page(Filter(table, q), q.offset, q.limit)
  }

  // ----- Writes -----

  datatype Write =
    | Create(row: Row, place: nat)
    | Update(id: Id, collection: Option<string>, details: Option<string>)
    | Delete(id: Id)

  function Changed(row: Row, w: Write): Row
    requires w.Update?
  {
    if row.id != w.id then row
    else
      row.(collection := if w.collection.Some? then w.collection else row.collection,
           details := if w.details.Some? then w.details.value else row.details)
  }

  predicate Has(table: Table, id: Id) {
    exists i :: 0 <= i < |table| && table[i].id == id
  }

  function Without(table: Table, id: Id): Table {
    if table == [] then []
    else if table[0].id == id then Without(table[1..], id)
    else [table[0]] + Without(table[1..], id)
  }

  function Apply(table: Table, w: Write): Table {
    match w
    case Create(row, place) =>
      var at := if place <= |table| then place else |table|;
      table[..at] + [row.(verb := Upper(row.verb))] + table[at..]
    case Update(_, _, _) => seq(|table|, i requires 0 <= i < |table| => Changed(table[i], w))
    case Delete(id) => Without(table, id)
  }

  /** Whether the handler commits and bumps at all: an empty patch does neither, a missing row is answered 404. */
  predicate Effective(table: Table, w: Write) {
    match w
    case Create(_, _) => true
    case Update(_, collection, details) => collection.Some? || details.Some?
    case Delete(id) => Has(table, id)
  }

  // ----- The protocol -----

  /** Rows handed to a client, with the position in the account's commit history they were selected from. */
  datatype Answer = Answer(rows: Table, at: nat)

  datatype ReadStage =
    | Fetching
    | LookingUp(version: nat)
    | Selecting(version: nat)
    | Filling(version: nat, answer: Answer)
    | Answered(answer: Answer)

  /** `seen` counts the writes that had returned when this reader fetched its version. */
  datatype Reader = Reader(account: Id, query: Query, stage: ReadStage, seen: nat)

  datatype WriteStage = Committing | Bumping(at: nat)

  datatype Writer = Writer(account: Id, write: Write, stage: WriteStage)

  /** A write whose bump call has finished: its commit and the version counter it left behind. */
  datatype Return = Return(account: Id, at: nat, version: nat)

  datatype State = State(
    history: map<Id, seq<Table>>,      // every committed table of an account, oldest first
    versions: map<Id, nat>,
    cache: map<string, Answer>,
    readers: map<Id, Reader>,
    writers: map<Id, Writer>,
    returned: seq<Return>)

  function History(s: State, account: Id): (tables: seq<Table>)
    ensures |tables| > 0
  {
    if account in s.history && s.history[account] != [] then s.history[account] else [[]]
  }

  function Version(s: State, account: Id): nat {
    if account in s.versions then s.versions[account] else 0
  }

  /** What may go wrong in a run. */
  datatype Faults = Faults(
    bumpsFail: bool,        // the INCR of a bump may fail, which the writer does not notice
    versionsExpire: bool,   // the version counter may expire, after which it starts again at 0
    replicasLag: bool,      // the database a reader queries may miss recent commits
    keysClash: bool,        // requests may carry filters whose printed keys are ambiguous
    cacheReturns: bool)     // after a failed fetch, the cache may answer again in time for the lookup

  const NO_FAULTS := Faults(false, false, false, false, false)

  datatype Event =
    | BeginRead(r: Id, account: Id, query: Query)
    | FetchVersion(r: Id)
    | FetchFails(r: Id)                 // reported as version 0, with the cache switched off for the lookup
    | FetchMisled(r: Id)                // reported as version 0 likewise, but the lookup goes ahead
    | LookUp(r: Id)
    | LookUpFails(r: Id)
    | SelectRows(r: Id, at: nat)
    | Fill(r: Id)
    | FillFails(r: Id)
    | BeginWrite(w: Id, account: Id, write: Write)
    | Commit(w: Id)
    | Bump(w: Id)
    | BumpFails(w: Id)
    | Evict(key: string)
    | ExpireVersion(account: Id)

  predicate Enabled(f: Faults, s: State, e: Event) {
    match e
    case BeginRead(r, _, query) => r !in s.readers && Valid(query) && (f.keysClash || Clean(query))
    case FetchVersion(r) => r in s.readers && s.readers[r].stage.Fetching?
    case FetchFails(r) => r in s.readers && s.readers[r].stage.Fetching?
    case FetchMisled(r) => r in s.readers && s.readers[r].stage.Fetching? && f.cacheReturns
    case LookUp(r) => r in s.readers && s.readers[r].stage.LookingUp?
    case LookUpFails(r) => r in s.readers && s.readers[r].stage.LookingUp?
    case SelectRows(r, at) =>
      && r in s.readers && s.readers[r].stage.Selecting?
      && at < |History(s, s.readers[r].account)|
      && (f.replicasLag || at == |History(s, s.readers[r].account)| - 1)
    case Fill(r) => r in s.readers && s.readers[r].stage.Filling?
    case FillFails(r) => r in s.readers && s.readers[r].stage.Filling?
    case BeginWrite(w, _, _) => w !in s.writers
    case Commit(w) => w in s.writers && s.writers[w].stage.Committing?
    case Bump(w) => w in s.writers && s.writers[w].stage.Bumping?
    case BumpFails(w) => w in s.writers && s.writers[w].stage.Bumping? && f.bumpsFail
    case Evict(_) => true
    case ExpireVersion(account) => f.versionsExpire
  }

  function KeyOf(reader: Reader, version: nat): string {
    Print(Key(reader.account, version, reader.query))
  }

  function Move(s: State, r: Id, stage: ReadStage): State
    requires r in s.readers
  {
    s.(readers := s.readers[r := s.readers[r].(stage := stage)])
  }

  function Fetched(s: State, r: Id, stage: ReadStage): State
    requires r in s.readers
  {
    s.(readers := s.readers[r := s.readers[r].(stage := stage, seen := |s.returned|)])
  }

  function Committed(s: State, w: Id): State
    requires w in s.writers
  {
    var account, write := s.writers[w].account, s.writers[w].write;
    var tables := History(s, account);
    var table := tables[|tables| - 1];
    if Effective(table, write) then
      s.(history := s.history[account := tables + [Apply(table, write)]],
         writers := s.writers[w := s.writers[w].(stage := Bumping(|tables|))])
    else s.(writers := s.writers - {w})
  }

  /** The writer returns to its caller, whether or not its bump took effect. */
  function Finished(s: State, w: Id, bumped: bool): State
    requires w in s.writers && s.writers[w].stage.Bumping?
  {
    var account := s.writers[w].account;
    var version := Version(s, account) + if bumped then 1 else 0;
    s.(versions := if bumped then s.versions[account := version] else s.versions,
       writers := s.writers - {w},
       returned := s.returned + [Return(account, s.writers[w].stage.at, version)])
  }

  function Next(f: Faults, s: State, e: Event): State
    requires Enabled(f, s, e)
  {
    match e
    case BeginRead(r, account, query) => s.(readers := s.readers[r := Reader(account, query, Fetching, 0)])
    case FetchVersion(r) => Fetched(s, r, LookingUp(Version(s, s.readers[r].account)))
    case FetchFails(r) => Fetched(s, r, Selecting(0))
    case FetchMisled(r) => Fetched(s, r, LookingUp(0))
    case LookUp(r) =>
      var version := s.readers[r].stage.version;
      var key := KeyOf(s.readers[r], version);
      Move(s, r, if key in s.cache then Answered(s.cache[key]) else Selecting(version))
    case LookUpFails(r) => Move(s, r, Selecting(s.readers[r].stage.version))
    case SelectRows(r, at) =>
      var rows := Select(History(s, s.readers[r].account)[at], s.readers[r].query);
      Move(s, r, Filling(s.readers[r].stage.version, Answer(rows, at)))
    case Fill(r) =>
      var stage := s.readers[r].stage;
      Move(s, r, Answered(stage.answer)).(cache := s.cache[KeyOf(s.readers[r], stage.version) := stage.answer])
    case FillFails(r) => Move(s, r, Answered(s.readers[r].stage.answer))
    case BeginWrite(w, account, write) => s.(writers := s.writers[w := Writer(account, write, Committing)])
    case Commit(w) => Committed(s, w)
    case Bump(w) => Finished(s, w, true)
    case BumpFails(w) => Finished(s, w, false)
    case Evict(key) => s.(cache := s.cache - {key})
    case ExpireVersion(account) => s.(versions := s.versions - {account})
  }

  predicate Initial(s: State) {
    s.cache == map[] && s.readers == map[] && s.writers == map[] && s.returned == []
  }

  ghost predicate IsRun(f: Faults, states: seq<State>, events: seq<Event>) {
    && |states| == |events| + 1
    && Initial(states[0])
    && forall i :: 0 <= i < |events| ==>
      Enabled(f, states[i], events[i]) && states[i + 1] == Next(f, states[i], events[i])
  }

  /** The answer is what the request selects from one committed table of the account, and that table
      contains every write that had returned when the reader fetched its version. */
  ghost predicate Fresh(s: State, reader: Reader, answer: Answer) {
    var tables := History(s, reader.account);
    && answer.at < |tables|
    && answer.rows == Select(tables[answer.at], reader.query)
    && reader.seen <= |s.returned|
    && forall j :: 0 <= j < reader.seen && s.returned[j].account == reader.account ==> s.returned[j].at <= answer.at
  }

  ghost predicate AllFresh(s: State) {
    forall r :: r in s.readers && s.readers[r].stage.Answered? ==> Fresh(s, s.readers[r], s.readers[r].stage.answer)
  }
}
