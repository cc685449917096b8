/** The block list: rows unique by account and address, blocked by hand or from the threat actors above a threshold. */
module BlockList {
  import opened Strings
  import opened Lists

  datatype Origin = MANUAL | AUTO

  datatype Row = Row(account: int, ip: string, reason: string, blockedBy: Origin, risk: real, events: int)

  datatype Actor = Actor(account: int, ip: string, risk: real, events: int)

  // ----- The unique constraint -----

  ghost predicate Unique(rows: seq<Row>) {
    forall i, j :: 0 <= i < j < |rows| ==> !(rows[i].account == rows[j].account && rows[i].ip == rows[j].ip)
  }

  predicate Blocked(rows: seq<Row>, account: int, ip: string) {
    exists i :: 0 <= i < |rows| && rows[i].account == account && rows[i].ip == ip
  }

  function Ips(rows: seq<Row>, account: int): (ips: set<string>)
    ensures forall ip :: ip in ips <==> Blocked(rows, account, ip)
  {
    set i | 0 <= i < |rows| && rows[i].account == account :: rows[i].ip
  }

  /** What a commit of several rows checks. */
  predicate Fits(rows: seq<Row>, more: seq<Row>) {
    && (forall j :: 0 <= j < |more| ==> !Blocked(rows, more[j].account, more[j].ip))
    && (forall i, j :: 0 <= i < j < |more| ==> !(more[i].account == more[j].account && more[i].ip == more[j].ip))
  }

  lemma FitsExactly(rows: seq<Row>, more: seq<Row>)
    requires Unique(rows)
    ensures Fits(rows, more) <==> Unique(rows + more)
  {
    var all := rows + more;
    assert forall i :: 0 <= i < |rows| ==> all[i] == rows[i];
    assert forall j :: 0 <= j < |more| ==> all[|rows| + j] == more[j];
    assert forall j :: |rows| <= j < |all| ==> all[j] == more[j - |rows|];
    if Unique(all) {
      forall j | 0 <= j < |more|
        ensures !Blocked(rows, more[j].account, more[j].ip)
      {
        assert forall i :: 0 <= i < |rows| ==>
          !(all[i].account == all[|rows| + j].account && all[i].ip == all[|rows| + j].ip);
      }
    }
  }

  lemma BlockedConcat(a: seq<Row>, b: seq<Row>, account: int, ip: string)
    ensures Blocked(a + b, account, ip) <==> Blocked(a, account, ip) || Blocked(b, account, ip)
  {
    var both := a + b;
    assert forall i :: 0 <= i < |a| ==> both[i] == a[i];
    assert forall i :: 0 <= i < |b| ==> both[|a| + i] == b[i];
    if Blocked(both, account, ip) {
      var i :| 0 <= i < |both| && both[i].account == account && both[i].ip == ip;
      if i >= |a| { assert b[i - |a|] == both[i]; }
    }
  }

  // ----- Removing a row -----

  function Without(rows: seq<Row>, account: int, ip: string): (r: seq<Row>)
    ensures !Blocked(rows, account, ip) ==> r == rows
  {
    if rows == [] then []
    else if rows[0].account == account && rows[0].ip == ip then
      assert Blocked(rows, account, ip);
      rows[1..]
    else
      var rest := Without(rows[1..], account, ip);
      assert Blocked(rows[1..], account, ip) ==> Blocked(rows, account, ip) by {
        assert forall i :: 0 <= i < |rows| - 1 ==> rows[1..][i] == rows[i + 1];
      }
      [rows[0]] + rest
  }

  lemma {:induction false} WithoutKeeps(rows: seq<Row>, account: int, ip: string, x: Row)
    requires Unique(rows)
    ensures x in Without(rows, account, ip) <==> x in rows && !(x.account == account && x.ip == ip)
  {
    if rows != [] {
      var rest := rows[1..];
      assert rows == [rows[0]] + rest;
      assert forall i :: 0 <= i < |rest| ==> rest[i] == rows[i + 1];
      if rows[0].account == account && rows[0].ip == ip {
        assert forall i :: 0 <= i < |rest| ==> !(rest[i].account == account && rest[i].ip == ip);
      } else {
        WithoutKeeps(rest, account, ip, x);
      }
    }
  }

  lemma {:induction false} WithoutUnique(rows: seq<Row>, account: int, ip: string)
    requires Unique(rows)
    ensures Unique(Without(rows, account, ip))
  {
    if rows != [] {
      var rest := rows[1..];
      assert forall i :: 0 <= i < |rest| ==> rest[i] == rows[i + 1];
      assert Unique(rest);
      if !(rows[0].account == account && rows[0].ip == ip) {
        var r := Without(rest, account, ip);
        WithoutUnique(rest, account, ip);
        forall i | 0 <= i < |r|
          ensures !(r[i].account == rows[0].account && r[i].ip == rows[0].ip)
        {
          assert r[i] in r;
          WithoutKeeps(rest, account, ip, r[i]);
          var k :| 0 <= k < |rest| && rest[k] == r[i];
          assert rows[k + 1] == r[i];
        }
        assert Without(rows, account, ip) == [rows[0]] + r;
      }
    }
  }

  /** Exactly the named row goes; the others stay and are still unique. */
  lemma WithoutExactly(rows: seq<Row>, account: int, ip: string)
    requires Unique(rows)
    ensures var r := Without(rows, account, ip);
            && Unique(r) && !Blocked(r, account, ip)
            && forall x :: x in r <==> x in rows && !(x.account == account && x.ip == ip)
  {
    var r := Without(rows, account, ip);
    WithoutUnique(rows, account, ip);
    forall x
      ensures x in r <==> x in rows && !(x.account == account && x.ip == ip)
    {
      WithoutKeeps(rows, account, ip, x);
    }
    assert forall i :: 0 <= i < |r| ==> r[i] in r;
  }

  /** Unblocking right after blocking restores the list. */
  lemma {:induction false} UnblockUndoesBlock(rows: seq<Row>, row: Row)
    requires !Blocked(rows, row.account, row.ip)
    ensures Without(rows + [row], row.account, row.ip) == rows
  {
    if rows == [] {
      assert rows + [row] == [row];
    } else {
      assert forall i :: 0 <= i < |rows| - 1 ==> rows[1..][i] == rows[i + 1];
      assert !Blocked(rows[1..], row.account, row.ip);
      UnblockUndoesBlock(rows[1..], row);
      assert (rows + [row])[0] == rows[0] && (rows + [row])[1..] == rows[1..] + [row];
    }
  }

  // ----- Automatic blocking -----

  predicate Risky(a: Actor, account: int, threshold: real) {
    a.account == account && a.risk >= threshold
  }

  /** `reason` prints the score and the event count. */
  function RowFor(reason: Actor -> string, a: Actor): Row {
    Row(a.account, a.ip, reason(a), AUTO, a.risk, a.events)
  }

  /** The rows for the risky actors that were not blocked when the run looked; the set is never updated in between. */
  function NewRows(reason: Actor -> string, actors: seq<Actor>, account: int, threshold: real,
                   already: set<string>): seq<Row>
  {
    if actors == [] then []
    else
      var a := actors[0];
      (if Risky(a, account, threshold) && a.ip !in already then [RowFor(reason, a)] else [])
      + NewRows(reason, actors[1..], account, threshold, already)
  }

  lemma {:induction false} NewRowsAppend(reason: Actor -> string, actors: seq<Actor>, last: Actor, account: int,
                                         threshold: real, already: set<string>)
    ensures NewRows(reason, actors + [last], account, threshold, already)
         == NewRows(reason, actors, account, threshold, already) + NewRows(reason, [last], account, threshold, already)
  {
    if actors == [] {
      assert actors + [last] == [last];
    } else {
      NewRowsAppend(reason, actors[1..], last, account, threshold, already);
      assert (actors + [last])[1..] == actors[1..] + [last];
    }
  }

  lemma {:induction false} NewRowsExactly(reason: Actor -> string, actors: seq<Actor>, account: int, threshold: real,
                                          already: set<string>)
    ensures forall row :: row in NewRows(reason, actors, account, threshold, already) <==>
              exists a :: a in actors && Risky(a, account, threshold) && a.ip !in already && row == RowFor(reason, a)
  {
    if actors != [] {
      NewRowsExactly(reason, actors[1..], account, threshold, already);
      assert actors == [actors[0]] + actors[1..];
    }
  }

  /** No two actors of one account share an address. */
  ghost predicate ActorsUnique(actors: seq<Actor>) {
    forall i, j :: 0 <= i < j < |actors| ==> !(actors[i].account == actors[j].account && actors[i].ip == actors[j].ip)
  }

  lemma {:induction false} UniqueActorsFit(reason: Actor -> string, actors: seq<Actor>, account: int, threshold: real,
                                           rows: seq<Row>)
    requires ActorsUnique(actors)
    ensures Fits(rows, NewRows(reason, actors, account, threshold, Ips(rows, account)))
  {
    var already := Ips(rows, account);
    if actors != [] {
      var rest := actors[1..];
      assert forall i :: 0 <= i < |rest| ==> rest[i] == actors[i + 1];
      UniqueActorsFit(reason, rest, account, threshold, rows);
      NewRowsExactly(reason, rest, account, threshold, already);
      var tail := NewRows(reason, rest, account, threshold, already);
      forall i | 0 <= i < |tail|
        ensures !(tail[i].account == actors[0].account && tail[i].ip == actors[0].ip)
      {
        assert tail[i] in tail;
        var a :| a in rest && tail[i] == RowFor(reason, a);
        var k :| 0 <= k < |rest| && rest[k] == a;
        assert actors[k + 1] == a;
      }
    }
  }

  class Store {
    var rows: seq<Row>

    constructor ()
      ensures Valid() && rows == []
    {
      rows := [];
    }

    /** At most one row per account and address. */
    ghost predicate Valid()
      reads this
    {
      Unique(rows)
    }

    /** Commits the pending rows, or none of them when one would break the constraint. */
    method Commit(pending: seq<Row>) returns (ok: bool)
      requires Valid()
      modifies this
      ensures Valid() && (ok <==> Fits(old(rows), pending))
      ensures rows == if ok then old(rows) + pending else old(rows)
    {
      FitsExactly(rows, pending);
      ok := Fits(rows, pending);
      if ok { rows := rows + pending; }
    }

    /** `others` are the rows that other sessions commit between this handler's query and its own commit. */
    method BlockIp(account: int, ip: string, reason: string, risk: real, others: seq<Row>) returns (statusCode: nat)
      requires Valid() && Unique(rows + others)
      modifies this
      ensures Valid() && statusCode in {200, 409}
      ensures statusCode == 409 <==> Blocked(old(rows) + others, account, ip)
      ensures statusCode == 200 ==>
        rows == old(rows) + others
          + [Row(account, ip, if reason == "" then "Manual block" else reason, MANUAL, risk, 0)]
      ensures statusCode == 409 ==> rows == old(rows) + others
    {
      var existing := Blocked(rows, account, ip);
      BlockedConcat(rows, others, account, ip);
      rows := rows + others;
      if existing { return 409; }
      var row := Row(account, ip, if reason == "" then "Manual block" else reason, MANUAL, risk, 0);
      assert [row][0] == row;
      var ok := Commit([row]);
      statusCode := if ok then 200 else 409;
    }

    method UnblockIp(account: int, ip: string) returns (statusCode: nat)
      requires Valid()
      modifies this
      ensures Valid() && statusCode == if Blocked(old(rows), account, ip) then 200 else 404
      ensures rows == Without(old(rows), account, ip)
    {
      WithoutExactly(rows, account, ip);
      if !Blocked(rows, account, ip) { return 404; }
      rows := Without(rows, account, ip);
      statusCode := 200;
    }

    /** Blocks every risky actor of the account in one commit; none is
        the error of a commit that breaks the constraint. */
    method AutoBlockHighRisk(account: int, threshold: real, actors: seq<Actor>, reason: Actor -> string,
                             others: seq<Row>)
      returns (newlyBlocked: Option<seq<Row>>)
      requires Valid() && Unique(rows + others)
      modifies this
      ensures Valid()
      ensures var more := NewRows(reason, actors, account, threshold, Ips(old(rows), account));
              && newlyBlocked == (if Fits(old(rows) + others, more) then Some(more) else None)
              && rows == old(rows) + others + if newlyBlocked.Some? then more else []
    {
      var already := Ips(rows, account);
      var pending: seq<Row> := [];
      for i := 0 to |actors|
        invariant pending == NewRows(reason, actors[..i], account, threshold, already) && rows == old(rows)
      {
        var actor := actors[i];
        NewRowsAppend(reason, actors[..i], actor, account, threshold, already);
        NextPrefix(actors, i);
        assert [actor][1..] == [];
        if !Risky(actor, account, threshold) || actor.ip in already { continue; }
        pending := pending + [RowFor(reason, actor)];
      }
      assert actors[..|actors|] == actors;
      rows := rows + others;
      var ok := Commit(pending);
      newlyBlocked := if ok then Some(pending) else None;
    }
  }

  // ----- What automatic blocking achieves -----

  /** Afterwards exactly the addresses blocked before and the risky
      ones are blocked, and other accounts are as before. */
  lemma AutoBlockBlocksExactly(rows: seq<Row>, actors: seq<Actor>, reason: Actor -> string, account: int,
                               threshold: real)
    ensures var now := rows + NewRows(reason, actors, account, threshold, Ips(rows, account));
            forall acc, ip :: Blocked(now, acc, ip) <==>
              || Blocked(rows, acc, ip)
              || (acc == account
                  && exists a :: a in actors && a.account == account && a.risk >= threshold && a.ip == ip)
  {
    var more := NewRows(reason, actors, account, threshold, Ips(rows, account));
    NewRowsExactly(reason, actors, account, threshold, Ips(rows, account));
    forall acc, ip
      ensures Blocked(more, acc, ip) <==>
                && acc == account && !Blocked(rows, account, ip)
                && exists a :: a in actors && Risky(a, account, threshold) && a.ip == ip
    {
      if Blocked(more, acc, ip) {
        var i :| 0 <= i < |more| && more[i].account == acc && more[i].ip == ip;
        assert more[i] in more;
      }
      if acc == account && !Blocked(rows, account, ip) {
        if a :| a in actors && Risky(a, account, threshold) && a.ip == ip {
          assert RowFor(reason, a) in more;
          var i :| 0 <= i < |more| && more[i] == RowFor(reason, a);
        }
      }
    }
    forall acc, ip
      ensures Blocked(rows + more, acc, ip) <==> Blocked(rows, acc, ip) || Blocked(more, acc, ip)
    {
      BlockedConcat(rows, more, acc, ip);
    }
  }

  lemma {:induction false} NewRowsPick(reason: Actor -> string, actors: seq<Actor>, account: int, threshold: real,
                                       already: set<string>, p: Actor -> bool, g: Actor -> Row) returns (at: seq<nat>)
    requires forall a :: p(a) <==> Risky(a, account, threshold) && a.ip !in already
    requires forall a :: g(a) == RowFor(reason, a)
    ensures Picks(actors, NewRows(reason, actors, account, threshold, already), p, g, at)
  {
    at := [];
    if actors != [] {
      var rest := NewRowsPick(reason, actors[1..], account, threshold, already, p, g);
      var kept := NewRows(reason, actors[1..], account, threshold, already);
      at := PicksNext(actors, kept, NewRows(reason, actors, account, threshold, already), p, g, rest);
    }
  }

  /** The rows added are, in order, one for each actor of the account at or above the threshold whose address was not
      blocked before, with its reason, its risk and its events. */
  lemma NewRowsInOrder(rows: seq<Row>, actors: seq<Actor>, reason: Actor -> string, account: int, threshold: real)
    ensures Picked(actors, NewRows(reason, actors, account, threshold, Ips(rows, account)),
                   (a: Actor) => a.account == account && a.risk >= threshold && !Blocked(rows, account, a.ip),
                   (a: Actor) => Row(a.account, a.ip, reason(a), AUTO, a.risk, a.events))
  {
    var p := (a: Actor) => a.account == account && a.risk >= threshold && !Blocked(rows, account, a.ip);
    var g := (a: Actor) => Row(a.account, a.ip, reason(a), AUTO, a.risk, a.events);
    var at := NewRowsPick(reason, actors, account, threshold, Ips(rows, account), p, g);
    PicksAlike(actors, NewRows(reason, actors, account, threshold, Ips(rows, account)), p, p, g, g, at);
  }

  lemma {:induction false} NothingNew(reason: Actor -> string, actors: seq<Actor>, account: int, threshold: real,
                                      already: set<string>)
    requires forall a :: a in actors && Risky(a, account, threshold) ==> a.ip in already
    ensures NewRows(reason, actors, account, threshold, already) == []
  {
    if actors != [] { NothingNew(reason, actors[1..], account, threshold, already); }
  }

  /** With unique actors and no other session in between, the commit succeeds and a second run adds nothing. */
  lemma SecondRunAddsNothing(rows: seq<Row>, actors: seq<Actor>, reason: Actor -> string, account: int, threshold: real)
    requires ActorsUnique(actors)
    ensures var more := NewRows(reason, actors, account, threshold, Ips(rows, account));
            Fits(rows, more) && NewRows(reason, actors, account, threshold, Ips(rows + more, account)) == []
  {
    UniqueActorsFit(reason, actors, account, threshold, rows);
    var now := rows + NewRows(reason, actors, account, threshold, Ips(rows, account));
    AutoBlockBlocksExactly(rows, actors, reason, account, threshold);
    forall a | a in actors && Risky(a, account, threshold)
      ensures a.ip in Ips(now, account)
    {
      assert Blocked(now, account, a.ip);
    }
    NothingNew(reason, actors, account, threshold, Ips(now, account));
  }

  /** The commit of a run succeeds exactly when the actors that it picked have distinct addresses. */
  lemma AutoBlockFitsExactly(rows: seq<Row>, actors: seq<Actor>, reason: Actor -> string, account: int, threshold: real)
    ensures var more := NewRows(reason, actors, account, threshold, Ips(rows, account));
            Fits(rows, more) <==> forall i, j :: 0 <= i < j < |more| ==> more[i].ip != more[j].ip
  {
    var more := NewRows(reason, actors, account, threshold, Ips(rows, account));
    NewRowsExactly(reason, actors, account, threshold, Ips(rows, account));
    forall i | 0 <= i < |more|
      ensures more[i].account == account && !Blocked(rows, account, more[i].ip)
    {
      assert more[i] in more;
    }
  }
}
