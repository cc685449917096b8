/** What a list request shows of a table, and what the writes do to it, row by row. */
module EndpointPages {
  import opened Strings
  import opened Lists
  import opened EndpointKey
  import opened EndpointCache

  /** The row passes every filter that is given; methods are stored in upper case. */
  predicate Wanted(row: Row, q: Query) {
    && (q.host == None || q.host == Some(row.host))
    && (q.verb == None || (q.verb.Some? && Upper(q.verb.value) == row.verb))
    && (q.collection == None || q.collection == row.collection)
  }

  lemma {:induction false} FilterPicks(table: Table, q: Query) returns (at: seq<nat>)
    ensures Picks(table, Filter(table, q), (row: Row) => Wanted(row, q), (row: Row) => row, at)
  {
    at := [];
    if table != [] {
      var rest := FilterPicks(table[1..], q);
      var kept := Filter(table[1..], q);
      at := PicksNext(table, kept, Filter(table, q), (row: Row) => Wanted(row, q), (row: Row) => row, rest);
    }
  }

  function Least(a: int, b: int): int {
    if a < b then a else b
  }

  /** The page of a list request: of the wanted rows, in listing order, those from the offset on, up to the limit.  `at`
      says where in the table the wanted rows are. */
  ghost predicate Shows(table: Table, q: Query, rows: Table, at: seq<nat>) {
    && Picks(table, Filter(table, q), (row: Row) => Wanted(row, q), (row: Row) => row, at)
    && |rows| == Least(q.limit, if |at| < q.offset then 0 else |at| - q.offset)
    && forall i :: 0 <= i < |rows| ==> at[q.offset + i] < |table| && rows[i] == table[at[q.offset + i]]
  }

  lemma SelectExactly(table: Table, q: Query)
    ensures exists at :: Shows(table, q, Select(table, q), at)
  {
    var at := FilterPicks(table, q);
    assert Shows(table, q, Select(table, q), at);
  }

  /** The next page goes on where one page ends: together they are the longer page. */
  lemma PagesContinue(table: Table, q: Query, more: nat)
    ensures Select(table, q) + Select(table, q.(offset := q.offset + q.limit, limit := more))
         == Select(table, q.(limit := q.limit + more))
  {
    var next, longer := q.(offset := q.offset + q.limit, limit := more), q.(limit := q.limit + more);
    SameFilter(table, q, next);
    SameFilter(table, q, longer);
  }

  lemma {:induction false} SameFilter(table: Table, q: Query, q': Query)
    requires q.host == q'.host && q.verb == q'.verb && q.collection == q'.collection
    ensures Filter(table, q) == Filter(table, q')
  {
    if table != [] { SameFilter(table[1..], q, q'); }
  }

  // ----- What the writes do -----

  /** A new endpoint takes its place in the listing, with its method in upper case, and moves no other. */
  lemma CreatedIsListed(table: Table, row: Row, place: nat)
    ensures var at, now := Least(place, |table|), Apply(table, Create(row, place));
            && |now| == |table| + 1 && now[..at] + now[at + 1..] == table
            && now[at] == Row(row.id, row.host, Upper(row.verb), row.collection, row.details)
  {
  }

  /** An update sets the given fields of the rows with the id and touches nothing else. */
  lemma UpdatedExactly(table: Table, id: Id, collection: Option<string>, details: Option<string>)
    ensures var now := Apply(table, Update(id, collection, details));
            && |now| == |table|
            && forall i :: 0 <= i < |now| ==>
                 && now[i].id == table[i].id && now[i].host == table[i].host && now[i].verb == table[i].verb
                 && (now[i].collection ==
                       if table[i].id == id && collection.Some? then collection else table[i].collection)
                 && (now[i].details == if table[i].id == id && details.Some? then details.value else table[i].details)
  {
  }

  lemma {:induction false} WithoutPicks(table: Table, id: Id) returns (at: seq<nat>)
    ensures Picks(table, Without(table, id), (row: Row) => row.id != id, (row: Row) => row, at)
  {
    at := [];
    if table != [] {
      var rest := WithoutPicks(table[1..], id);
      var kept := Without(table[1..], id);
      at := PicksNext(table, kept, Without(table, id), (row: Row) => row.id != id, (row: Row) => row, rest);
    }
  }

  /** A deletion leaves the other rows, in their order. */
  lemma DeletedExactly(table: Table, id: Id)
    ensures Picked(table, Apply(table, Delete(id)), (row: Row) => row.id != id, (row: Row) => row)
  {
    var at := WithoutPicks(table, id);
    PicksAlike(table, Without(table, id), (row: Row) => row.id != id, (row: Row) => row.id != id, (row: Row) => row,
               (row: Row) => row, at);
  }
}
