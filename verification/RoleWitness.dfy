/** The row locks are what the guarantee rests on: without either of them a run leaves a user with a deleted role. */
module RoleWitness {
  import opened Strings
  import opened RoleProtocol
  import opened RoleSafety

  const OPS := Role(7, "OPS", {})
  const ASSIGN := Invite(7, "a@b.c", "OPS")
  const ANN := User(7, "a@b.c", "OPS")
  const DELETE := DeleteRole(7, 1)
  const TABLE: map<Id, Role> := map[1 := OPS]
  const INVITER: Id := 10
  const DELETER: Id := 20

  ghost predicate AlwaysSafe(cfg: Locking) {
    forall states, events, i :: IsRun(cfg, states, events) && 0 <= i < |states| ==> AllRolesStand(states[i])
  }

  function Assigner(stage: Stage, row: Option<Id>): Tx {
    Tx(ASSIGN, stage, row, None, NoWrite)
  }

  function Deleter(stage: Stage, row: Option<Id>): Tx {
    Tx(DELETE, stage, None, row, NoWrite)
  }

  lemma OnlyOps()
    ensures FindRole(TABLE, 7, "OPS") == Some(1)
    ensures "OPS" !in FIXED_ROLES
  {
    assert Named(TABLE[1], 7, "OPS");
  }

  /** Some run of the protocol ends in `s`. */
  ghost predicate RunTo(cfg: Locking, s: State) {
    exists states, events :: IsRun(cfg, states, events) && states[|states| - 1] == s
  }

  lemma StepTo(cfg: Locking, s: State, e: Event)
    requires RunTo(cfg, s) && Enabled(cfg, s, e)
    ensures RunTo(cfg, Next(cfg, s, e))
  {
    var states, events :| IsRun(cfg, states, events) && states[|states| - 1] == s;
    var s' := Next(cfg, s, e);
    assert IsRun(cfg, states + [s'], events + [e]);
    assert (states + [s'])[|states + [s']| - 1] == s';
  }

  function Below(n: nat): (ids: set<Id>)
    ensures forall id: Id :: id in ids <==> id < n
  {
    if n == 0 then {} else Below(n - 1) + {n - 1}
  }

  function Txs(inviter: Option<Tx>, deleter: Option<Tx>): map<Id, Tx> {
    (if inviter.Some? then map[INVITER := inviter.value] else map[])
    + (if deleter.Some? then map[DELETER := deleter.value] else map[])
  }

  /** A database with one invite and one deletion in flight and the ids below `top` handed out. */
  function Scene(users: map<Id, User>, roles: map<Id, Role>, inviter: Option<Tx>, deleter: Option<Tx>, top: Id): State {
    State(users, roles, Txs(inviter, deleter), Below(top))
  }

  predicate Waiting(cfg: Locking, s: State, tx: Tx, other: Option<Tx>) {
    other.Some? && Conflicts(s, other.value, NextNeed(cfg, tx))
  }

  lemma InviterMoves(cfg: Locking, users: map<Id, User>, roles: map<Id, Role>, tx: Tx, other: Option<Tx>, top: Id,
                     tx': Tx)
    requires RunTo(cfg, Scene(users, roles, Some(tx), other, top)) && !tx.stage.Flushed?
    requires !Waiting(cfg, Scene(users, roles, Some(tx), other, top), tx, other)
    requires Statement(cfg, Scene(users, roles, Some(tx), other, top), tx, top) == Now(tx')
    ensures RunTo(cfg, Scene(users, roles, Some(tx'), other, top + 1))
  {
    var s := Scene(users, roles, Some(tx), other, top);
    assert !Blocked(cfg, s, INVITER);
    StepTo(cfg, s, Advance(INVITER, top));
    assert s.txs[INVITER := tx'] == Txs(Some(tx'), other);
    assert s.issued + {top} == Below(top + 1);
  }

  lemma DeleterMoves(cfg: Locking, users: map<Id, User>, roles: map<Id, Role>, tx: Tx, other: Option<Tx>, top: Id,
                     tx': Tx)
    requires RunTo(cfg, Scene(users, roles, other, Some(tx), top)) && !tx.stage.Flushed?
    requires !Waiting(cfg, Scene(users, roles, other, Some(tx), top), tx, other)
    requires Statement(cfg, Scene(users, roles, other, Some(tx), top), tx, top) == Now(tx')
    ensures RunTo(cfg, Scene(users, roles, other, Some(tx'), top + 1))
  {
    var s := Scene(users, roles, other, Some(tx), top);
    assert !Blocked(cfg, s, DELETER);
    StepTo(cfg, s, Advance(DELETER, top));
    assert s.txs[DELETER := tx'] == Txs(other, Some(tx'));
    assert s.issued + {top} == Below(top + 1);
  }

  lemma InviterCommits(cfg: Locking, users: map<Id, User>, roles: map<Id, Role>, tx: Tx, other: Option<Tx>, top: Id)
    requires RunTo(cfg, Scene(users, roles, Some(tx), other, top)) && tx.stage.Flushed? && tx.write.AddUser?
    ensures RunTo(cfg, Scene(users[tx.write.id := tx.write.user], roles, None, other, top))
  {
    var s := Scene(users, roles, Some(tx), other, top);
    assert NextNeed(cfg, tx) == Nothing && !Blocked(cfg, s, INVITER);
    StepTo(cfg, s, Advance(INVITER, top));
    assert s.txs - {INVITER} == Txs(None, other);
  }

  lemma DeleterCommits(cfg: Locking, users: map<Id, User>, tx: Tx, other: Option<Tx>, top: Id)
    requires RunTo(cfg, Scene(users, TABLE, other, Some(tx), top)) && tx.stage.Flushed? && tx.write == DropRole(1)
    ensures RunTo(cfg, Scene(users, map[], other, None, top))
  {
    var s := Scene(users, TABLE, other, Some(tx), top);
    assert NextNeed(cfg, tx) == Nothing && !Blocked(cfg, s, DELETER);
    StepTo(cfg, s, Advance(DELETER, top));
    assert s.txs - {DELETER} == Txs(other, None) && TABLE - {1} == map[];
  }

  lemma BothStarted(cfg: Locking)
    ensures RunTo(cfg, Scene(map[], TABLE, Some(Assigner(Begin, None)), Some(Deleter(Begin, None)), 2))
  {
    OnlyOps();
    var s := Scene(map[], TABLE, None, None, 2);
    assert s.txs == map[];
    assert Initial(s) by { assert ValidRoleName("OPS"); }
    assert IsRun(cfg, [s], []) && [s][|[s]| - 1] == s;
    StepTo(cfg, s, Start(INVITER, ASSIGN));
    var s1 := Next(cfg, s, Start(INVITER, ASSIGN));
    StepTo(cfg, s1, Start(DELETER, DELETE));
    assert s1.txs[DELETER := Deleter(Begin, None)] == Txs(Some(Assigner(Begin, None)), Some(Deleter(Begin, None)));
  }

  lemma DeleterTakesRow(cfg: Locking, inviter: Tx, top: Id)
    requires RunTo(cfg, Scene(map[], TABLE, Some(inviter), Some(Deleter(Begin, None)), top))
    requires inviter.shared.None? && inviter.exclusive.None?
    ensures RunTo(cfg, Scene(map[], TABLE, Some(inviter),
                             Some(Deleter(Owned("OPS"), if cfg.update then Some(1) else None)), top + 2))
  {
    var lock := if cfg.update then Some(1) else None;
    DeleterMoves(cfg, map[], TABLE, Deleter(Begin, None), Some(inviter), top, Deleter(AwaitExclusive(1), None));
    DeleterMoves(cfg, map[], TABLE, Deleter(AwaitExclusive(1), None), Some(inviter), top + 1,
                 Deleter(Owned("OPS"), lock));
  }

  /** The first three statements of the deletion: its row is found, taken (or only read) and counted. */
  lemma DeleterCounts(cfg: Locking, inviter: Tx, top: Id)
    requires RunTo(cfg, Scene(map[], TABLE, Some(inviter), Some(Deleter(Begin, None)), top))
    requires inviter.shared.None? && inviter.exclusive.None?
    ensures RunTo(cfg, Scene(map[], TABLE, Some(inviter),
                             Some(Deleter(Unheld("OPS"), if cfg.update then Some(1) else None)), top + 3))
  {
    var lock := if cfg.update then Some(1) else None;
    DeleterTakesRow(cfg, inviter, top);
    assert !Assigned(map[], 7, "OPS");
    DeleterMoves(cfg, map[], TABLE, Deleter(Owned("OPS"), lock), Some(inviter), top + 2, Deleter(Unheld("OPS"), lock));
  }

  /** The first two statements of the invite: the role row is found and locked (or only read). */
  lemma InviterChecks(cfg: Locking, deleter: Tx, top: Id)
    requires RunTo(cfg, Scene(map[], TABLE, Some(Assigner(Begin, None)), Some(deleter), top))
    requires deleter.shared.None? && deleter.exclusive.None?
    ensures RunTo(cfg, Scene(map[], TABLE, Some(Assigner(Granted, if cfg.share then Some(1) else None)), Some(deleter),
                             top + 2))
  {
    OnlyOps();
    InviterMoves(cfg, map[], TABLE, Assigner(Begin, None), Some(deleter), top, Assigner(AwaitShare(1), None));
    InviterMoves(cfg, map[], TABLE, Assigner(AwaitShare(1), None), Some(deleter), top + 1,
                 Assigner(Granted, if cfg.share then Some(1) else None));
  }

  lemma InviterLoads(cfg: Locking, roles: map<Id, Role>, lock: Option<Id>, deleter: Option<Tx>, top: Id)
    requires RunTo(cfg, Scene(map[], roles, Some(Assigner(Granted, lock)), deleter, top))
    ensures RunTo(cfg, Scene(map[], roles, Some(Assigner(Loaded(""), lock)), deleter, top + 1))
  {
    assert !EmailTaken(map[], "a@b.c");
    InviterMoves(cfg, map[], roles, Assigner(Granted, lock), deleter, top, Assigner(Loaded(""), lock));
  }

  lemma InviterInserts(cfg: Locking, roles: map<Id, Role>, lock: Option<Id>, deleter: Option<Tx>, top: Id)
    requires RunTo(cfg, Scene(map[], roles, Some(Assigner(Loaded(""), lock)), deleter, top))
    requires deleter.Some? ==> deleter.value.write == NoWrite
    ensures RunTo(cfg, Scene(map[], roles, Some(Assigner(Flushed, lock).(write := AddUser(top, ANN))), deleter,
                             top + 1))
  {
    assert !EmailTaken(map[], "a@b.c");
    var tx := Assigner(Loaded(""), lock);
    assert NextNeed(cfg, tx) == Email("a@b.c");
    InviterMoves(cfg, map[], roles, tx, deleter, top, Assigner(Flushed, lock).(write := AddUser(top, ANN)));
  }

  /** The rest of the invite: the email is free, the user is inserted and committed. */
  lemma InviterFinishes(cfg: Locking, roles: map<Id, Role>, lock: Option<Id>, deleter: Option<Tx>, top: Id)
    requires RunTo(cfg, Scene(map[], roles, Some(Assigner(Granted, lock)), deleter, top))
    requires deleter.Some? ==> deleter.value.write == NoWrite
    ensures RunTo(cfg, Scene(map[top + 1 := ANN], roles, None, deleter, top + 2))
  {
    InviterLoads(cfg, roles, lock, deleter, top);
    InviterInserts(cfg, roles, lock, deleter, top + 1);
    InviterCommits(cfg, map[], roles, Assigner(Flushed, lock).(write := AddUser(top + 1, ANN)), deleter, top + 2);
    var none: map<Id, User> := map[];
    assert none[top + 1 := ANN] == map[top + 1 := ANN];
  }

  lemma DeleterFinishes(cfg: Locking, users: map<Id, User>, lock: Option<Id>, inviter: Option<Tx>, top: Id)
    requires RunTo(cfg, Scene(users, TABLE, inviter, Some(Deleter(Unheld("OPS"), lock)), top))
    requires inviter.Some? ==> inviter.value.shared.None? && inviter.value.exclusive.None?
    ensures RunTo(cfg, Scene(users, map[], inviter, None, top + 1))
  {
    var flushed := Deleter(Flushed, Some(1)).(write := DropRole(1));
    DeleterMoves(cfg, users, TABLE, Deleter(Unheld("OPS"), lock), inviter, top, flushed);
    DeleterCommits(cfg, users, flushed, inviter, top + 1);
  }

  lemma Dangling(cfg: Locking, s: State, u: Id)
    requires RunTo(cfg, s) && s.roles == map[] && u in s.users && s.users[u] == ANN
    ensures !AlwaysSafe(cfg)
  {
    OnlyOps();
    assert !RoleStands(s.roles, s.users[u]);
    var states, events :| IsRun(cfg, states, events) && states[|states| - 1] == s;
    assert !AllRolesStand(states[|states| - 1]);
  }

  lemma UnsharedRun(cfg: Locking)
    requires !cfg.share
    ensures RunTo(cfg, Scene(map[9 := ANN], map[], None, None, 10))
  {
    var checked := Assigner(Granted, None);
    BothStarted(cfg);
    InviterChecks(cfg, Deleter(Begin, None), 2);
    DeleterCounts(cfg, checked, 4);
    DeleterFinishes(cfg, map[], if cfg.update then Some(1) else None, Some(checked), 7);
    InviterFinishes(cfg, map[], None, None, 8);
  }

  lemma UnlockedRun(cfg: Locking)
    requires !cfg.update
    ensures RunTo(cfg, Scene(map[8 := ANN], map[], None, None, 10))
  {
    var counted := Deleter(Unheld("OPS"), None);
    BothStarted(cfg);
    DeleterCounts(cfg, Assigner(Begin, None), 2);
    InviterChecks(cfg, counted, 5);
    InviterFinishes(cfg, TABLE, if cfg.share then Some(1) else None, Some(counted), 7);
    DeleterFinishes(cfg, map[8 := ANN], None, None, 9);
  }

  /** Without FOR SHARE the whole deletion fits between the check and the insert of an invite. */
  lemma UnsharedCheckIsUnsafe(cfg: Locking)
    requires !cfg.share
    ensures !AlwaysSafe(cfg)
  {
    UnsharedRun(cfg);
    Dangling(cfg, Scene(map[9 := ANN], map[], None, None, 10), 9);
  }

  /** Without FOR UPDATE the whole invite fits between the in-use count and the DELETE statement. */
  lemma UnlockedCountIsUnsafe(cfg: Locking)
    requires !cfg.update
    ensures !AlwaysSafe(cfg)
  {
    UnlockedRun(cfg);
    Dangling(cfg, Scene(map[8 := ANN], map[], None, None, 10), 8);
  }

  /** The guarantee holds in every run exactly when the database honours both kinds of row lock. */
  lemma SafeExactlyWithBothLocks(cfg: Locking)
    ensures AlwaysSafe(cfg) <==> cfg.share && cfg.update
  {
    if cfg == BOTH_LOCKS {
      forall states, events, i | IsRun(cfg, states, events) && 0 <= i < |states|
        ensures AllRolesStand(states[i])
      {
        CommittedRolesStand(states, events, i);
      }
    } else if cfg.update {
      UnsharedCheckIsUnsafe(cfg);
    } else {
      UnlockedCountIsUnsafe(cfg);
    }
  }
}
