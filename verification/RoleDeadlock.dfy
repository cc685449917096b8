/** The role protocol cannot deadlock: waiting goes strictly down a ranking of the transactions. */
module RoleDeadlock {
  import opened Strings
  import opened RoleProtocol
  import opened RoleSafety

  predicate WantsRole(need: Need) {
    need.ShareRow? || need.ExclusiveRow? || need.RoleKey?
  }

  /** The transaction has an unfinished write of the user's row. */
  predicate Rewrites(tx: Tx, user: Id) {
    tx.write in {DropUser(user)} || (tx.write.SetUserRole? && tx.write.id == user)
  }

  /** It has an unfinished write of a row with this email. */
  predicate HoldsEmail(s: State, tx: Tx, email: string) {
    || (tx.write.AddUser? && tx.write.user.email == email)
    || exists u :: u in s.users && Rewrites(tx, u) && s.users[u].email == email
  }

  /** It has an unfinished write of a custom role of this account and name. */
  predicate HoldsRoleKey(s: State, tx: Tx, account: Id, name: string) {
    || (tx.write.AddRole? && tx.write.row.account == account && tx.write.row.name == name)
    || exists r :: r in s.roles && s.roles[r].account == account && s.roles[r].name == name
                   && (tx.write == DropRole(r) || (tx.write.SetPermissions? && tx.write.id == r))
  }

  /** Who waits for whom: for the lock on a role row, as far as the database honours it, or for an unfinished write of the
      same role row, user row, email or role name. */
  lemma WaitsExactly(cfg: Locking, s: State, t: Id, holder: Id)
    requires t in s.txs && holder in s.txs && t != holder
    ensures var tx, other := s.txs[t], s.txs[holder];
            Waits(cfg, s, t, holder) <==>
              || (tx.stage.AwaitShare? && cfg.share && other.exclusive == Some(tx.stage.row))
              || (tx.stage.AwaitExclusive? && (tx.req.EditRole? || (tx.req.DeleteRole? && cfg.update))
                  && (other.exclusive == Some(tx.stage.row) || other.shared == Some(tx.stage.row)))
              || (tx.req.DeleteRole? && tx.stage.Unheld?
                  && (other.exclusive == Some(tx.req.roleId) || other.shared == Some(tx.req.roleId)))
              || (tx.req.CreateRole? && tx.stage.Granted? && HoldsRoleKey(s, other, tx.req.account, tx.req.name))
              || (tx.req.Invite? && tx.stage.Loaded? && HoldsEmail(s, other, tx.req.email))
              || (tx.req.ChangeRole? && tx.stage.Loaded? && tx.stage.oldRole != tx.req.role
                  && Rewrites(other, tx.req.user))
              || (tx.req.DeleteUser? && tx.stage.Loaded? && Rewrites(other, tx.req.user))
  {
    var other := s.txs[holder];
    assert forall u :: Rewrites(other, u) <==> WritesUserRow(other.write, u);
  }

  /** The locking discipline of every transaction that is waiting. */
  lemma WaiterHolds(states: seq<State>, events: seq<Event>, i: nat, t: Id)
    requires IsRun(BOTH_LOCKS, states, events) && i < |states|
    requires t in states[i].txs && Blocked(BOTH_LOCKS, states[i], t)
    ensures var tx := states[i].txs[t];
            && tx.write == NoWrite
            && tx.exclusive.None?
            && (WantsRole(NextNeed(BOTH_LOCKS, tx)) ==> tx.shared.None?)
  {
    RunInv(states, events, i);
    var s := states[i];
    var q :| Waits(BOTH_LOCKS, s, t, q);
    assert TxOk(s, s.txs[t]) && TxOk(s, s.txs[q]) && Apart(s.txs[t], s.txs[q]) && Apart(s.txs[q], s.txs[t]);
  }

  function Rank(tx: Tx): nat {
    if tx.exclusive.Some? then 0
    else match NextNeed(BOTH_LOCKS, tx)
      case Nothing => 0
      case UserRow(_) => 1
      case Email(_) => 1
      case _ => 2
  }

  lemma WaitingDescends(s: State, t: Id, q: Id)
    requires Inv(s) && Waits(BOTH_LOCKS, s, t, q)
    ensures Rank(s.txs[q]) < Rank(s.txs[t])
  {
    assert TxOk(s, s.txs[t]) && TxOk(s, s.txs[q]) && Apart(s.txs[t], s.txs[q]) && Apart(s.txs[q], s.txs[t]);
  }

  /** A chain of transactions, each waiting for the next. */
  ghost predicate WaitChain(s: State, chain: seq<Id>) {
    forall i :: 0 <= i < |chain| - 1 ==> Waits(BOTH_LOCKS, s, chain[i], chain[i + 1])
  }

  lemma {:induction false} ChainDescends(s: State, chain: seq<Id>, i: nat)
    requires Inv(s) && WaitChain(s, chain) && 0 < i < |chain|
    ensures chain[0] in s.txs && chain[i] in s.txs
    ensures Rank(s.txs[chain[i]]) + i <= Rank(s.txs[chain[0]])
  {
    WaitingDescends(s, chain[i - 1], chain[i]);
    if i > 1 { ChainDescends(s, chain, i - 1); }
  }

  /** In every reachable state the wait-for graph has no cycle, and no chain of more than two waits. */
  lemma NoWaitCycle(states: seq<State>, events: seq<Event>, i: nat, chain: seq<Id>)
    requires IsRun(BOTH_LOCKS, states, events) && i < |states|
    requires WaitChain(states[i], chain) && |chain| >= 2
    ensures chain[0] != chain[|chain| - 1]
    ensures |chain| <= 3
  {
    RunInv(states, events, i);
    ChainDescends(states[i], chain, |chain| - 1);
  }

  lemma {:induction false} SomeoneRuns(s: State, t: Id)
    requires Inv(s) && t in s.txs
    ensures exists q :: q in s.txs && !Blocked(BOTH_LOCKS, s, q)
    decreases Rank(s.txs[t])
  {
    if Blocked(BOTH_LOCKS, s, t) {
      var q :| Waits(BOTH_LOCKS, s, t, q);
      WaitingDescends(s, t, q);
      SomeoneRuns(s, q);
    }
  }

  /** While any transaction is in flight, some transaction can execute its next statement. */
  lemma AlwaysProgress(states: seq<State>, events: seq<Event>, i: nat)
    requires IsRun(BOTH_LOCKS, states, events) && i < |states| && states[i].txs != map[]
    ensures exists t, newId :: Enabled(BOTH_LOCKS, states[i], Advance(t, newId))
  {
    RunInv(states, events, i);
    var s := states[i];
    var t :| t in s.txs;
    SomeoneRuns(s, t);
    var q :| q in s.txs && !Blocked(BOTH_LOCKS, s, q);
    var newId := Unused(s.issued);
    assert Enabled(BOTH_LOCKS, s, Advance(q, newId));
  }

  ghost function Unused(ids: set<Id>): (id: Id)
    ensures id !in ids
  {
    UnusedExists(ids);
    var id :| id !in ids; id
  }

  lemma UnusedExists(ids: set<Id>)
    ensures exists id: Id :: id !in ids
  {
    var bound := UpperBound(ids);
    assert bound !in ids;
  }

  lemma UpperBound(ids: set<Id>) returns (bound: Id)
    ensures forall id :: id in ids ==> id < bound
  {
    if ids == {} {
      bound := 0;
    } else {
      var id :| id in ids;
      var rest := UpperBound(ids - {id});
      bound := if rest > id then rest else id + 1;
      assert ids == (ids - {id}) + {id};
    }
  }

  /** Each statement moves its transaction strictly closer to its end. */
  function StepsLeft(tx: Tx): nat {
    match tx.stage
    case Begin => 6
    case AwaitShare(_) => 5
    case Granted => 4
    case Loaded(_) => 3
    case AwaitExclusive(_) => 4
    case Owned(_) => 3
    case Unheld(_) => 2
    case Flushed => 1
  }

  lemma StatementsAreFew(cfg: Locking, s: State, t: Id, newId: Id)
    requires Enabled(cfg, s, Advance(t, newId))
    ensures var s' := Next(cfg, s, Advance(t, newId));
            t !in s'.txs || StepsLeft(s'.txs[t]) < StepsLeft(s.txs[t])
    ensures var s' := Next(cfg, s, Advance(t, newId));
            forall q :: q != t ==> (q in s'.txs <==> q in s.txs) && (q in s.txs ==> s'.txs[q] == s.txs[q])
  {
  }

  ghost function WorkLeft(txs: map<Id, Tx>): nat
    decreases |txs|
  {
    if txs == map[] then 0 else
      var t :| t in txs;
      assert |(txs - {t}).Keys| < |txs.Keys| by { assert (txs - {t}).Keys == txs.Keys - {t}; }
      StepsLeft(txs[t]) + WorkLeft(txs - {t})
  }

  lemma {:induction false} WorkSplits(txs: map<Id, Tx>, t: Id)
    requires t in txs
    ensures WorkLeft(txs) == StepsLeft(txs[t]) + WorkLeft(txs - {t})
    decreases |txs|
  {
    var q :| q in txs && WorkLeft(txs) == StepsLeft(txs[q]) + WorkLeft(txs - {q});
    if q != t {
      assert (txs - {q}).Keys == txs.Keys - {q};
      WorkSplits(txs - {q}, t);
      WorkSplits(txs - {t}, q);
      assert txs - {q} - {t} == txs - {t} - {q};
    }
  }

  lemma AdvanceDoesWork(cfg: Locking, s: State, t: Id, newId: Id)
    requires Enabled(cfg, s, Advance(t, newId))
    ensures WorkLeft(Next(cfg, s, Advance(t, newId)).txs) < WorkLeft(s.txs)
  {
    var s' := Next(cfg, s, Advance(t, newId));
    WorkSplits(s.txs, t);
    StatementsAreFew(cfg, s, t, newId);
    if t in s'.txs {
      WorkSplits(s'.txs, t);
      assert s'.txs - {t} == s.txs - {t};
    } else {
      assert s'.txs == s.txs - {t};
    }
  }

  /** Every run can be continued, without rolling anything back or
      starting anything new, until all handlers are done. */
  lemma {:induction false} EveryRunDrains(states: seq<State>, events: seq<Event>)
    returns (moreStates: seq<State>, moreEvents: seq<Event>)
    requires IsRun(BOTH_LOCKS, states, events)
    ensures IsRun(BOTH_LOCKS, states + moreStates, events + moreEvents)
    ensures (states + moreStates)[|states + moreStates| - 1].txs == map[]
    ensures forall e :: e in moreEvents ==> e.Advance?
    decreases WorkLeft(states[|states| - 1].txs)
  {
    var s := states[|states| - 1];
    if s.txs == map[] {
      moreStates, moreEvents := [], [];
      assert states + moreStates == states && events + moreEvents == events;
    } else {
      AlwaysProgress(states, events, |states| - 1);
      var t, newId :| Enabled(BOTH_LOCKS, s, Advance(t, newId));
      var e := Advance(t, newId);
      var s' := Next(BOTH_LOCKS, s, e);
      AdvanceDoesWork(BOTH_LOCKS, s, t, newId);
      var restStates, restEvents := EveryRunDrains(states + [s'], events + [e]);
      moreStates, moreEvents := [s'] + restStates, [e] + restEvents;
      assert states + moreStates == states + [s'] + restStates;
      assert events + moreEvents == events + [e] + restEvents;
    }
  }
}
