/** The handlers of endpoints.py as they run when nothing interleaves: a list shows the table, cached or not. */
module EndpointService {
  import opened Strings
  import opened EndpointKey
  import opened EndpointCache

  /** Two requests that print the same key, for the same account and version. */
  predicate SameKey(q: Query, q': Query) {
    q.(host := None, verb := None) == q'.(host := None, verb := None) && Middle(q) == Middle(q')
  }

  /** Clean requests share their key with no other clean request. */
  lemma CleanRequestsAreAlone(q: Query, q': Query)
    requires Clean(q) && Clean(q') && SameKey(q, q')
    ensures q == q'
  {
    KeysClashExactly(Key(0, 0, q), Key(0, 0, q'));
    CleanKeysDiffer(Key(0, 0, q), Key(0, 0, q'));
  }

  lemma HasExactly(table: Table, id: Id)
    ensures Has(table, id) <==> exists row :: row in table && row.id == id
  {
    if Has(table, id) {
      var i :| 0 <= i < |table| && table[i].id == id;
      assert table[i] in table;
    }
  }

  /** What the protocol commits is what the handlers do: the newest table with the write applied to it, or nothing at all
      for an empty patch or for a row that is not there. */
  lemma CommitDoesTheWrite(f: Faults, s: State, w: Id)
    requires Enabled(f, s, Commit(w))
    ensures var account, write := s.writers[w].account, s.writers[w].write;
            var tables, s' := History(s, account), Next(f, s, Commit(w));
            var table := tables[|tables| - 1];
            var idle := (write.Update? && write.collection.None? && write.details.None?)
                        || (write.Delete? && forall row :: row in table ==> row.id != write.id);
            if idle then s' == s.(writers := s.writers - {w})
            else
              && History(s', account) == tables + [Apply(table, write)]
              && (forall other :: other != account ==> History(s', other) == History(s, other))
              && s' == s.(history := s'.history, writers := s.writers[w := Writer(account, write, Bumping(|tables|))])
  {
    var tables := History(s, s.writers[w].account);
    if s.writers[w].write.Delete? { HasExactly(tables[|tables| - 1], s.writers[w].write.id); }
  }

  class Service {
    var tables: map<Id, Table>
    var versions: map<Id, nat>
    var cache: map<string, Table>
    ghost var asked: set<Query>     // every request served so far

    constructor ()
      ensures Consistent() && tables == map[] && asked == {}
    {
      tables, versions, cache, asked := map[], map[], map[], {};
    }

    function TableOf(account: Id): Table
      reads this
    {
      if account in tables then tables[account] else []
    }

    function VersionOf(account: Id): nat
      reads this
    {
      if account in versions then versions[account] else 0
    }

    /** The rows are what the current table holds for a request that was served and prints the same key. */
    ghost predicate Answers(rows: Table, account: Id, q: Query)
      reads this
    {
      exists q' :: q' in asked && Valid(q') && SameKey(q, q') && rows == Select(TableOf(account), q')
    }

    /** A cached list belongs to a version there has been, and under the current version it answers its key. */
    ghost predicate Consistent()
      reads this
    {
      forall k: Key :: Valid(k.query) && Print(k) in cache ==>
        k.version <= VersionOf(k.account)
          && (k.version == VersionOf(k.account) ==> Answers(cache[Print(k)], k.account, k.query))
    }

    /** For any valid request the answer is the current selection of some served request with the same
        key: of the request itself, then, when it shares its key with no other request that was served. */
    method GetEndpoints(account: Id, q: Query) returns (rows: Table)
      requires Consistent() && Valid(q)
      modifies `cache, `asked
      ensures Consistent() && asked == old(asked) + {q}
      ensures Answers(rows, account, q)
      ensures (forall q' :: q' in asked && Valid(q') && SameKey(q, q') ==> q' == q) ==>
                rows == Select(if account in tables then tables[account] else [], q)
    {
      asked := asked + {q};
      var key := Key(account, VersionOf(account), q);
      if Print(key) in cache { return cache[Print(key)]; }
      rows := Select(TableOf(account), q);
      forall k: Key | Valid(k.query) && Print(k) == Print(key)
        ensures k.account == account && k.version == VersionOf(account) && SameKey(k.query, q)
      {
        KeysClashExactly(k, key);
      }
      cache := cache[Print(key) := rows];
    }

    /** Commits a table, then bumps the version, which retires every list cached so far. */
    method CommitAndBump(account: Id, table: Table)
      requires Consistent()
      modifies `tables, `versions
      ensures Consistent()
      ensures tables == old(tables)[account := table]
                && versions == old(versions)[account := old(VersionOf(account)) + 1]
    {
      tables := tables[account := table];
      versions := versions[account := VersionOf(account) + 1];
    }

    /** `place` is where the listing order puts the new row. */
    method CreateEndpoint(account: Id, row: Row, place: nat)
      requires Consistent()
      modifies `tables, `versions
      ensures Consistent() && tables == old(tables)[account := Apply(old(TableOf(account)), Create(row, place))]
    {
      CommitAndBump(account, Apply(TableOf(account), Create(row, place)));
    }

    method UpdateEndpoint(account: Id, id: Id, collection: Option<string>, details: Option<string>)
      requires Consistent()
      modifies `tables, `versions
      ensures Consistent()
      ensures if collection.None? && details.None? then tables == old(tables) && versions == old(versions)
              else tables == old(tables)[account := Apply(old(TableOf(account)), Update(id, collection, details))]
    {
      if collection.Some? || details.Some? {
        CommitAndBump(account, Apply(TableOf(account), Update(id, collection, details)));
      }
    }

    method DeleteEndpoint(account: Id, id: Id) returns (statusCode: nat)
      requires Consistent()
      modifies `tables, `versions
      ensures Consistent() && statusCode in {200, 404}
      ensures statusCode == 200 <==> account in old(tables) && exists row :: row in old(tables)[account] && row.id == id
      ensures statusCode == 200 ==> tables == old(tables)[account := Apply(old(TableOf(account)), Delete(id))]
      ensures statusCode == 404 ==> tables == old(tables) && versions == old(versions)
    {
      HasExactly(TableOf(account), id);
      if !Has(TableOf(account), id) { return 404; }
      CommitAndBump(account, Apply(TableOf(account), Delete(id)));
      statusCode := 200;
    }
  }

  // ----- What the writes do to a list -----

  lemma {:induction false} WithoutExactly(table: Table, id: Id, row: Row)
    ensures row in Without(table, id) <==> row in table && row.id != id
  {
    if table != [] {
      WithoutExactly(table[1..], id, row);
      assert table == [table[0]] + table[1..];
    }
  }

  lemma {:induction false} FilterExactly(table: Table, q: Query, row: Row)
    ensures row in Filter(table, q) <==> row in table && Matches(row, q)
  {
    if table != [] {
      FilterExactly(table[1..], q, row);
      assert table == [table[0]] + table[1..];
    }
  }

  /** A deleted endpoint is in no list from then on; the matching others are in the unlimited list as before. */
  lemma DeletedIsGone(table: Table, id: Id, q: Query, row: Row)
    ensures row in Select(Apply(table, Delete(id)), q) ==> row.id != id
    ensures row in Filter(Apply(table, Delete(id)), q) <==> row in Filter(table, q) && row.id != id
  {
    var now := Without(table, id);
    FilterExactly(now, q, row);
    FilterExactly(table, q, row);
    WithoutExactly(table, id, row);
    assert row in Select(now, q) ==> row in Filter(now, q);
  }
}
