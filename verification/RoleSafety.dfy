/** The inductive invariant of the role protocol under PostgreSQL locking, and what follows from it. */
module RoleSafety {
  import opened Strings
  import opened RoleProtocol

  const BOTH_LOCKS := Locking(true, true)

  predicate Assigns(req: Request) {
    req.Invite? || req.ChangeRole?
  }

  /** The role this transaction assigns was checked, and if it is a custom role its row is share-locked. */
  ghost predicate Cleared(roles: map<Id, Role>, tx: Tx)
    requires Assigns(tx.req)
  {
    || tx.req.role in FIXED_ROLES
    || (tx.req.ChangeRole? && tx.req.role == PLATFORM_ADMIN && tx.req.callerIsPlatformAdmin)
    || (tx.shared.Some? && tx.shared.value in roles && Named(roles[tx.shared.value], tx.req.account, tx.req.role))
  }

  ghost predicate LocksOk(s: State, tx: Tx) {
    && (tx.shared.Some? ==> tx.shared.value in s.roles && Assigns(tx.req))
    && (tx.exclusive.Some? ==> tx.exclusive.value in s.roles && (tx.req.EditRole? || tx.req.DeleteRole?))
    && (tx.stage.Begin? || tx.stage.AwaitShare? || tx.stage.AwaitExclusive? ==> tx.shared.None? && tx.exclusive.None?)
    && (tx.req.CreateRole? ==> tx.shared.None?)
  }

  ghost predicate StageOk(s: State, tx: Tx) {
    && (Assigns(tx.req) && (tx.stage.Granted? || tx.stage.Loaded? || tx.stage.Flushed?) ==> Cleared(s.roles, tx))
    && (tx.stage.AwaitShare? ==>
          && Assigns(tx.req) && tx.stage.row in s.issued
          && (tx.stage.row in s.roles ==> Named(s.roles[tx.stage.row], tx.req.account, tx.req.role)))
    && (tx.stage.AwaitExclusive? ==>
          && (tx.req.EditRole? || tx.req.DeleteRole?) && tx.stage.row == tx.req.roleId && tx.stage.row in s.issued
          && (tx.stage.row in s.roles ==> s.roles[tx.stage.row].account == tx.req.account))
    && (tx.stage.Owned? || tx.stage.Unheld? ==>
          && tx.req.DeleteRole? && tx.exclusive == Some(tx.req.roleId) && tx.req.roleId in s.roles
          && Named(s.roles[tx.req.roleId], tx.req.account, tx.stage.name))
    && (tx.stage.Unheld? ==> !Assigned(s.users, tx.req.account, tx.stage.name))
    && (tx.stage.Granted? && tx.req.CreateRole? ==> ValidRoleName(tx.req.name))
    && (tx.stage.Loaded? ==> tx.req.Invite? || tx.req.ChangeRole? || tx.req.DeleteUser?)
    && (tx.stage.Granted? ==> tx.req.Invite? || tx.req.ChangeRole? || tx.req.CreateRole?)
    && (tx.stage.Loaded? && tx.req.ChangeRole? ==>
          && tx.req.user in s.issued
          && (tx.req.user in s.users ==> s.users[tx.req.user].account == tx.req.account))
  }

  ghost predicate WriteOk(s: State, tx: Tx) {
    && (tx.write != NoWrite ==> tx.stage.Flushed?)
    && match tx.write
       case NoWrite => true
       case AddUser(id, user) =>
         && tx.req.Invite? && user == User(tx.req.account, tx.req.email, tx.req.role)
         && id in s.issued && id !in s.users && !EmailTaken(s.users, user.email)
       case SetUserRole(id, role) =>
         && tx.req.ChangeRole? && id == tx.req.user && role == tx.req.role && id in s.users
         && s.users[id].account == tx.req.account
       case DropUser(id) => id in s.users
       case AddRole(id, row) =>
         && tx.req.CreateRole? && id in s.issued && id !in s.roles
         && ValidRoleName(row.name) && !RoleExists(s.roles, row.account, row.name)
       case SetPermissions(id, _) => tx.exclusive == Some(id)
       case DropRole(id) =>
         && tx.exclusive == Some(id) && id in s.roles && tx.req == DeleteRole(s.roles[id].account, id)
         && !Assigned(s.users, s.roles[id].account, s.roles[id].name)
  }

  /** The write a handler is about to commit is the one its request asked for. */
  ghost predicate RequestOk(s: State, tx: Tx) {
    && (tx.req.DeleteUser? && (tx.stage.Loaded? || tx.stage.Flushed?) ==> tx.req.user in s.issued)
    && (tx.stage.Flushed? ==>
          match tx.req
          case Invite(_, _, _) => tx.write.AddUser?
          case ChangeRole(_, user, role, _) => tx.write == SetUserRole(user, role) || tx.write == NoWrite
          case DeleteUser(_, user) => tx.write == DropUser(user) || (tx.write == NoWrite && user !in s.users)
          case CreateRole(account, name, permissions) =>
            tx.write.AddRole? && tx.write.row == Role(account, name, permissions)
          case EditRole(_, roleId, permissions) => tx.write == SetPermissions(roleId, permissions)
          case DeleteRole(_, roleId) => tx.write == DropRole(roleId))
  }

  ghost predicate TxOk(s: State, tx: Tx) {
    LocksOk(s, tx) && StageOk(s, tx) && WriteOk(s, tx) && RequestOk(s, tx)
  }

  /** Two transactions in flight never hold conflicting locks or unfinished writes of one key. */
  ghost predicate Apart(a: Tx, b: Tx) {
    && (a.exclusive.Some? ==> b.shared != a.exclusive && b.exclusive != a.exclusive)
    && (b.exclusive.Some? ==> a.shared != b.exclusive)
    && (a.write.AddRole? && b.write.AddRole? ==>
          a.write.id != b.write.id && !Named(a.write.row, b.write.row.account, b.write.row.name))
    && (a.write.AddUser? && b.write.AddUser? ==>
          a.write.id != b.write.id && a.write.user.email != b.write.user.email)
    && ((a.write.SetUserRole? || a.write.DropUser?) && (b.write.SetUserRole? || b.write.DropUser?) ==>
          a.write.id != b.write.id)
    && NotYetKnown(a, b) && NotYetKnown(b, a)
  }

  /** No transaction refers to a row another one is still inserting. */
  ghost predicate NotYetKnown(a: Tx, b: Tx) {
    && (a.write.AddUser? && b.stage.Loaded? && b.req.ChangeRole? ==> a.write.id != b.req.user)
    && (a.write.AddUser? && (b.stage.Loaded? || b.stage.Flushed?) && b.req.DeleteUser? ==> a.write.id != b.req.user)
    && (a.write.AddRole? && (b.stage.AwaitShare? || b.stage.AwaitExclusive?) ==> a.write.id != b.stage.row)
  }

  ghost predicate TablesOk(s: State) {
    && AllRolesStand(s)
    && RoleKeysUnique(s.roles)
    && NamesValid(s.roles)
    && EmailsUnique(s.users)
    && s.users.Keys <= s.issued
    && s.roles.Keys <= s.issued
  }

  ghost predicate Inv(s: State) {
    && TablesOk(s)
    && (forall t :: t in s.txs ==> TxOk(s, s.txs[t]))
    && (forall t, q :: t in s.txs && q in s.txs && t != q ==> Apart(s.txs[t], s.txs[q]))
  }

  // ----- Statements that write nothing to the tables -----

  /** Replacing one transaction's private state keeps the invariant if the new state fits the others. */
  lemma OwnStateChanged(s: State, t: Id, tx: Tx, newId: Id)
    requires Inv(s) && t in s.txs && newId !in s.issued
    requires TxOk(s.(issued := s.issued + {newId}), tx)
    requires forall q :: q in s.txs && q != t ==> Apart(tx, s.txs[q])
    ensures Inv(s.(txs := s.txs[t := tx], issued := s.issued + {newId}))
  {
    var s' := s.(txs := s.txs[t := tx], issued := s.issued + {newId});
    forall q | q in s'.txs
      ensures TxOk(s', s'.txs[q])
    {
      if q != t { assert TxOk(s, s.txs[q]); }
    }
  }

  ghost predicate FitsOthers(s: State, t: Id, tx: Tx) {
    forall q :: q in s.txs && q != t ==> Apart(tx, s.txs[q])
  }

  lemma NotWaiting(cfg: Locking, s: State, t: Id, q: Id)
    requires t in s.txs && q in s.txs && t != q && !Blocked(cfg, s, t)
    ensures !Conflicts(s, s.txs[q], NextNeed(cfg, s.txs[t]))
  {
    assert !Waits(cfg, s, t, q);
  }

  lemma FirstStage(s: State, tx: Tx, newId: Id)
    requires TxOk(s, tx) && tx.stage.Begin? && First(s, tx).Now? && s.roles.Keys <= s.issued && s.users.Keys <= s.issued
    ensures First(s, tx).tx == tx.(stage := First(s, tx).tx.stage) && tx.write == NoWrite
    ensures TxOk(s.(issued := s.issued + {newId}), First(s, tx).tx)
  {
  }

  /** A transaction that has written nothing yet may move to any stage but the ones that name a row in flight. */
  lemma StageApart(a: Tx, b: Tx, stage: Stage)
    requires Apart(a, b) && a.write == NoWrite
    requires stage.Loaded? && a.req.ChangeRole? && b.write.AddUser? ==> b.write.id != a.req.user
    requires stage.Loaded? && a.req.DeleteUser? && b.write.AddUser? ==> b.write.id != a.req.user
    requires (stage.AwaitShare? || stage.AwaitExclusive?) && b.write.AddRole? ==> b.write.id != stage.row
    requires !stage.Flushed?
    ensures Apart(a.(stage := stage), b)
  {
  }

  lemma FirstOk(s: State, t: Id, newId: Id)
    requires Inv(s) && t in s.txs && newId !in s.issued && s.txs[t].stage.Begin? && First(s, s.txs[t]).Now?
    ensures TxOk(s.(issued := s.issued + {newId}), First(s, s.txs[t]).tx) && FitsOthers(s, t, First(s, s.txs[t]).tx)
  {
    var tx := s.txs[t];
    FirstStage(s, tx, newId);
    forall q | q in s.txs && q != t
      ensures Apart(First(s, tx).tx, s.txs[q])
    {
      assert Apart(tx, s.txs[q]) && WriteOk(s, s.txs[q]);
      StageApart(tx, s.txs[q], First(s, tx).tx.stage);
    }
  }

  lemma AwaitShareOk(s: State, t: Id, newId: Id)
    requires Inv(s) && t in s.txs && newId !in s.issued && s.txs[t].stage.AwaitShare? && !Blocked(BOTH_LOCKS, s, t)
    requires Statement(BOTH_LOCKS, s, s.txs[t], newId).Now?
    ensures TxOk(s.(issued := s.issued + {newId}), Statement(BOTH_LOCKS, s, s.txs[t], newId).tx)
    ensures FitsOthers(s, t, Statement(BOTH_LOCKS, s, s.txs[t], newId).tx)
  {
    assert TxOk(s, s.txs[t]);
    var tx := Statement(BOTH_LOCKS, s, s.txs[t], newId).tx;
    forall q | q in s.txs && q != t
      ensures Apart(tx, s.txs[q])
    {
      NotWaiting(BOTH_LOCKS, s, t, q);
      assert Apart(s.txs[t], s.txs[q]);
    }
  }

  lemma AfterGrantOk(s: State, t: Id, newId: Id)
    requires Inv(s) && t in s.txs && newId !in s.issued && s.txs[t].stage.Granted? && !Blocked(BOTH_LOCKS, s, t)
    requires AfterGrant(s, s.txs[t], newId).Now?
    ensures TxOk(s.(issued := s.issued + {newId}), AfterGrant(s, s.txs[t], newId).tx)
    ensures FitsOthers(s, t, AfterGrant(s, s.txs[t], newId).tx)
  {
    assert TxOk(s, s.txs[t]);
    var tx := AfterGrant(s, s.txs[t], newId).tx;
    forall q | q in s.txs && q != t
      ensures Apart(tx, s.txs[q])
    {
      NotWaiting(BOTH_LOCKS, s, t, q);
      assert Apart(s.txs[t], s.txs[q]);
      assert TxOk(s, s.txs[q]);
    }
  }

  lemma AfterLoadTx(s: State, tx: Tx, newId: Id)
    requires TxOk(s, tx) && tx.stage.Loaded? && newId !in s.issued && AfterLoad(s, tx, newId).Now?
    requires s.users.Keys <= s.issued && s.roles.Keys <= s.issued
    ensures TxOk(s.(issued := s.issued + {newId}), AfterLoad(s, tx, newId).tx)
  {
  }

  lemma AfterLoadOk(s: State, t: Id, newId: Id)
    requires Inv(s) && t in s.txs && newId !in s.issued && s.txs[t].stage.Loaded? && !Blocked(BOTH_LOCKS, s, t)
    requires AfterLoad(s, s.txs[t], newId).Now?
    ensures TxOk(s.(issued := s.issued + {newId}), AfterLoad(s, s.txs[t], newId).tx)
    ensures FitsOthers(s, t, AfterLoad(s, s.txs[t], newId).tx)
  {
    assert TxOk(s, s.txs[t]);
    AfterLoadTx(s, s.txs[t], newId);
    var tx := AfterLoad(s, s.txs[t], newId).tx;
    forall q | q in s.txs && q != t
      ensures Apart(tx, s.txs[q])
    {
      NotWaiting(BOTH_LOCKS, s, t, q);
      assert Apart(s.txs[t], s.txs[q]);
      assert TxOk(s, s.txs[q]);
    }
  }

  lemma OwnRowOk(s: State, t: Id, newId: Id, row: Id)
    requires Inv(s) && t in s.txs && newId !in s.issued && !Blocked(BOTH_LOCKS, s, t)
    requires s.txs[t].stage == AwaitExclusive(row) && OwnRow(BOTH_LOCKS, s, s.txs[t], row).Now?
    ensures TxOk(s.(issued := s.issued + {newId}), OwnRow(BOTH_LOCKS, s, s.txs[t], row).tx)
    ensures FitsOthers(s, t, OwnRow(BOTH_LOCKS, s, s.txs[t], row).tx)
  {
    assert TxOk(s, s.txs[t]);
    var tx := OwnRow(BOTH_LOCKS, s, s.txs[t], row).tx;
    forall q | q in s.txs && q != t
      ensures Apart(tx, s.txs[q])
    {
      NotWaiting(BOTH_LOCKS, s, t, q);
      assert Apart(s.txs[t], s.txs[q]);
    }
  }

  lemma DeleterOk(s: State, t: Id, newId: Id)
    requires Inv(s) && t in s.txs && newId !in s.issued && (s.txs[t].stage.Owned? || s.txs[t].stage.Unheld?)
    requires Statement(BOTH_LOCKS, s, s.txs[t], newId).Now?
    ensures TxOk(s.(issued := s.issued + {newId}), Statement(BOTH_LOCKS, s, s.txs[t], newId).tx)
    ensures FitsOthers(s, t, Statement(BOTH_LOCKS, s, s.txs[t], newId).tx)
  {
    assert TxOk(s, s.txs[t]);
    assert forall q :: q in s.txs && q != t ==> Apart(s.txs[t], s.txs[q]);
  }

  lemma StatementOk(s: State, t: Id, newId: Id)
    requires Inv(s) && t in s.txs && newId !in s.issued && !s.txs[t].stage.Flushed? && !Blocked(BOTH_LOCKS, s, t)
    requires Statement(BOTH_LOCKS, s, s.txs[t], newId).Now?
    ensures TxOk(s.(issued := s.issued + {newId}), Statement(BOTH_LOCKS, s, s.txs[t], newId).tx)
    ensures FitsOthers(s, t, Statement(BOTH_LOCKS, s, s.txs[t], newId).tx)
  {
    match s.txs[t].stage
    case Begin => FirstOk(s, t, newId);
    case AwaitShare(_) => AwaitShareOk(s, t, newId);
    case Granted => AfterGrantOk(s, t, newId);
    case Loaded(_) => AfterLoadOk(s, t, newId);
    case AwaitExclusive(row) => OwnRowOk(s, t, newId, row);
    case _ => DeleterOk(s, t, newId);
  }

  // ----- Commits -----

  /** A commit changes the tables under every other transaction; each must still fit them. */
  ghost predicate CommitKeeps(s: State, t: Id)
    requires t in s.txs
  {
    var s' := Committed(s, s.txs[t].write);
    TablesOk(s') && forall q :: q in s.txs && q != t ==> TxOk(s', s.txs[q])
  }

  lemma CommitAddUser(s: State, t: Id)
    requires Inv(s) && t in s.txs && s.txs[t].write.AddUser?
    ensures CommitKeeps(s, t)
  {
    var tx := s.txs[t];
    assert TxOk(s, tx);
    var s' := Committed(s, tx.write);
    var id, user := tx.write.id, tx.write.user;
    forall q | q in s.txs && q != t
      ensures TxOk(s', s.txs[q])
    {
      assert TxOk(s, s.txs[q]) && Apart(tx, s.txs[q]);
      HolderStaysAbsent(s, t, q);
    }
  }

  lemma CommitSetUserRole(s: State, t: Id)
    requires Inv(s) && t in s.txs && s.txs[t].write.SetUserRole?
    ensures CommitKeeps(s, t)
  {
    var tx := s.txs[t];
    assert TxOk(s, tx);
    var s' := Committed(s, tx.write);
    forall q | q in s.txs && q != t
      ensures TxOk(s', s.txs[q])
    {
      assert TxOk(s, s.txs[q]) && Apart(tx, s.txs[q]);
      HolderStaysAbsent(s, t, q);
    }
  }

  /** While a deleter owns its row, no commit of an assigner can give anyone that role. */
  lemma HolderStaysAbsent(s: State, t: Id, q: Id)
    requires Inv(s) && t in s.txs && q in s.txs && q != t
    requires s.txs[t].write.AddUser? || s.txs[t].write.SetUserRole?
    ensures var s' := Committed(s, s.txs[t].write);
            forall row ::
              s.txs[q].exclusive == Some(row) && !Assigned(s.users, s.roles[row].account, s.roles[row].name) ==>
                !Assigned(s'.users, s.roles[row].account, s.roles[row].name)
  {
    var tx, other := s.txs[t], s.txs[q];
    assert TxOk(s, tx) && TxOk(s, other) && Apart(tx, other);
    var s' := Committed(s, tx.write);
    forall row | other.exclusive == Some(row) && !Assigned(s.users, s.roles[row].account, s.roles[row].name)
      ensures !Assigned(s'.users, s.roles[row].account, s.roles[row].name)
    {
      var role := s.roles[row];
      forall u | u in s'.users
        ensures !Holds(s'.users[u], role.account, role.name)
      {
        if u == tx.write.id {
          assert role.name !in RESERVED_NAMES;
          assert Cleared(s.roles, tx);
        } else {
          assert u in s.users && s'.users[u] == s.users[u];
        }
      }
    }
  }

  lemma CommitDropUser(s: State, t: Id)
    requires Inv(s) && t in s.txs && s.txs[t].write.DropUser?
    ensures CommitKeeps(s, t)
  {
    var tx := s.txs[t];
    assert TxOk(s, tx);
    var s' := Committed(s, tx.write);
    forall q | q in s.txs && q != t
      ensures TxOk(s', s.txs[q])
    {
      assert TxOk(s, s.txs[q]) && Apart(tx, s.txs[q]);
    }
  }

  lemma CommitAddRole(s: State, t: Id)
    requires Inv(s) && t in s.txs && s.txs[t].write.AddRole?
    ensures CommitKeeps(s, t)
  {
    var tx := s.txs[t];
    assert TxOk(s, tx);
    var s' := Committed(s, tx.write);
    RolesOnlyGrow(s, s');
    forall q | q in s.txs && q != t
      ensures TxOk(s', s.txs[q])
    {
      assert TxOk(s, s.txs[q]) && Apart(tx, s.txs[q]);
    }
  }

  lemma RolesOnlyGrow(s: State, s': State)
    requires AllRolesStand(s) && s'.users == s.users
    requires forall r :: r in s.roles ==> r in s'.roles && Named(s'.roles[r], s.roles[r].account, s.roles[r].name)
    ensures AllRolesStand(s')
  {
    forall u | u in s'.users
      ensures RoleStands(s'.roles, s'.users[u])
    {
      assert RoleStands(s.roles, s.users[u]);
    }
  }

  lemma CommitSetPermissions(s: State, t: Id)
    requires Inv(s) && t in s.txs && s.txs[t].write.SetPermissions?
    ensures CommitKeeps(s, t)
  {
    var tx := s.txs[t];
    assert TxOk(s, tx);
    var s' := Committed(s, tx.write);
    RolesOnlyGrow(s, s');
    forall q | q in s.txs && q != t
      ensures TxOk(s', s.txs[q])
    {
      assert TxOk(s, s.txs[q]) && Apart(tx, s.txs[q]);
    }
  }

  lemma CommitDropRole(s: State, t: Id)
    requires Inv(s) && t in s.txs && s.txs[t].write.DropRole?
    ensures CommitKeeps(s, t)
  {
    var tx := s.txs[t];
    assert TxOk(s, tx);
    var row := tx.write.id;
    var s' := Committed(s, tx.write);
    forall u | u in s'.users
      ensures RoleStands(s'.roles, s'.users[u])
    {
      assert RoleStands(s.roles, s.users[u]);
      assert !Holds(s.users[u], s.roles[row].account, s.roles[row].name);
      if RoleExists(s.roles, s.users[u].account, s.users[u].role) {
        var r :| r in s.roles && Named(s.roles[r], s.users[u].account, s.users[u].role);
        assert r in s'.roles;
      }
    }
    forall q | q in s.txs && q != t
      ensures TxOk(s', s.txs[q])
    {
      assert TxOk(s, s.txs[q]) && Apart(tx, s.txs[q]);
    }
  }

  lemma CommitInv(s: State, t: Id)
    requires Inv(s) && t in s.txs
    ensures Inv(Committed(s, s.txs[t].write).(txs := s.txs - {t}))
  {
    var s' := Committed(s, s.txs[t].write);
    assert TxOk(s, s.txs[t]);
    match s.txs[t].write {
      case NoWrite =>
      case AddUser(_, _) => CommitAddUser(s, t);
      case SetUserRole(_, _) => CommitSetUserRole(s, t);
      case DropUser(_) => CommitDropUser(s, t);
      case AddRole(_, _) => CommitAddRole(s, t);
      case SetPermissions(_, _) => CommitSetPermissions(s, t);
      case DropRole(_) => CommitDropRole(s, t);
    }
    assert CommitKeeps(s, t);
    var done := s'.(txs := s.txs - {t});
    forall q | q in done.txs
      ensures TxOk(done, done.txs[q])
    {
      assert TxOk(s', s.txs[q]);
    }
  }

  // ----- Every run -----

  lemma NextInv(s: State, e: Event)
    requires Inv(s) && Enabled(BOTH_LOCKS, s, e)
    ensures Inv(Next(BOTH_LOCKS, s, e))
  {
    match e
    case Start(t, req) => StartInv(s, t, req);
    case Rollback(t) => RollbackInv(s, t);
    case Advance(t, newId) =>
      if s.txs[t].stage.Flushed? {
        CommitInv(s, t);
      } else if Statement(BOTH_LOCKS, s, s.txs[t], newId).Now? {
        StatementOk(s, t, newId);
        OwnStateChanged(s, t, Statement(BOTH_LOCKS, s, s.txs[t], newId).tx, newId);
      } else {
        RollbackInv(s, t);
      }
  }

  lemma StartsApart(s: State, tx: Tx, q: Id)
    requires Inv(s) && q in s.txs && tx == Tx(tx.req, Begin, None, None, NoWrite)
    ensures Apart(tx, s.txs[q]) && Apart(s.txs[q], tx)
  {
  }

  lemma StartInv(s: State, t: Id, req: Request)
    requires Inv(s) && t !in s.txs
    ensures Inv(s.(txs := s.txs[t := Tx(req, Begin, None, None, NoWrite)]))
  {
    var tx := Tx(req, Begin, None, None, NoWrite);
    var s' := s.(txs := s.txs[t := tx]);
    assert TxOk(s', tx);
    forall q | q in s.txs
      ensures TxOk(s', s.txs[q]) && Apart(tx, s.txs[q]) && Apart(s.txs[q], tx)
    {
      assert TxOk(s, s.txs[q]);
      StartsApart(s, tx, q);
    }
  }

  lemma RollbackInv(s: State, t: Id)
    requires Inv(s) && t in s.txs
    ensures Inv(s.(txs := s.txs - {t}))
  {
    var s' := s.(txs := s.txs - {t});
    forall q | q in s'.txs
      ensures TxOk(s', s'.txs[q])
    {
      assert TxOk(s, s.txs[q]);
    }
  }

  lemma {:induction false} RunInv(states: seq<State>, events: seq<Event>, i: nat)
    requires IsRun(BOTH_LOCKS, states, events) && i < |states|
    ensures Inv(states[i])
  {
    if i > 0 {
      RunInv(states, events, i - 1);
      NextInv(states[i - 1], events[i - 1]);
    }
  }

  /** Every user committed at any moment of any run has a role that stands. */
  lemma CommittedRolesStand(states: seq<State>, events: seq<Event>, i: nat)
    requires IsRun(BOTH_LOCKS, states, events) && i < |states|
    ensures AllRolesStand(states[i])
    ensures RoleKeysUnique(states[i].roles) && NamesValid(states[i].roles) && EmailsUnique(states[i].users)
  {
    RunInv(states, events, i);
  }

  /** The in-use count is still zero when the deletion commits, so a deleted role has no holder. */
  lemma DeletedRoleHasNoHolder(states: seq<State>, events: seq<Event>, i: nat, row: Id)
    requires IsRun(BOTH_LOCKS, states, events) && i < |events|
    requires row in states[i].roles && row !in states[i + 1].roles
    ensures !Assigned(states[i + 1].users, states[i].roles[row].account, states[i].roles[row].name)
    ensures events[i].Advance? && states[i].txs[events[i].t].req == DeleteRole(states[i].roles[row].account, row)
  {
    RunInv(states, events, i);
    var s, e := states[i], events[i];
    assert states[i + 1] == Next(BOTH_LOCKS, s, e);
    assert e.Advance? && s.txs[e.t].stage.Flushed?;
    assert TxOk(s, s.txs[e.t]);
  }

  /** Only a change made by a PLATFORM_ADMIN turns a user into a PLATFORM_ADMIN; an invite never does. */
  lemma OnlyPlatformAdminElevates(states: seq<State>, events: seq<Event>, i: nat, u: Id)
    requires IsRun(BOTH_LOCKS, states, events) && i < |events|
    requires u in states[i + 1].users && states[i + 1].users[u].role == PLATFORM_ADMIN
    requires u !in states[i].users || states[i].users[u].role != PLATFORM_ADMIN
    ensures events[i].Advance?
    ensures var req := states[i].txs[events[i].t].req;
            req.ChangeRole? && req.user == u && req.account == states[i + 1].users[u].account
              && req.callerIsPlatformAdmin
  {
    RunInv(states, events, i);
    var s, e := states[i], events[i];
    assert states[i + 1] == Next(BOTH_LOCKS, s, e);
    assert e.Advance? && s.txs[e.t].stage.Flushed?;
    var tx := s.txs[e.t];
    assert TxOk(s, tx);
    assert PLATFORM_ADMIN in RESERVED_NAMES;
    assert Cleared(s.roles, tx);
    assert tx.shared.Some? ==> ValidRoleName(s.roles[tx.shared.value].name);
  }

  /** What a handler that reports success has done to the tables. */
  ghost predicate Effect(req: Request, wrote: bool, before: State, after: State) {
    match req
    case Invite(account, email, role) =>
      exists id: Id :: id !in before.users && after == before.(users := before.users[id := User(account, email, role)])
    case ChangeRole(account, user, role, _) =>
      if wrote then
        && user in before.users && before.users[user].account == account
        && after == before.(users := before.users[user := before.users[user].(role := role)])
      else after == before
    case DeleteUser(account, user) => after == before.(users := before.users - {user})
    case CreateRole(account, name, permissions) =>
      && !RoleExists(before.roles, account, name)
      && exists id: Id ::
           id !in before.roles && after == before.(roles := before.roles[id := Role(account, name, permissions)])
    case EditRole(account, roleId, permissions) =>
      && roleId in before.roles
      && after == before.(roles := before.roles[roleId := before.roles[roleId].(permissions := permissions)])
    case DeleteRole(account, roleId) =>
      && roleId in before.roles && before.roles[roleId].account == account
      && after == before.(roles := before.roles - {roleId})
  }

  /** A commit does to the tables exactly what its request says, whatever ran in between. */
  lemma CommitDoesTheRequest(states: seq<State>, events: seq<Event>, i: nat)
    requires IsRun(BOTH_LOCKS, states, events) && i < |events|
    requires events[i].Advance? && states[i].txs[events[i].t].stage.Flushed?
    ensures var tx := states[i].txs[events[i].t];
            Effect(tx.req, tx.write != NoWrite, states[i], states[i + 1].(txs := states[i].txs))
  {
    RunInv(states, events, i);
    var s := states[i];
    var tx := s.txs[events[i].t];
    assert TxOk(s, tx);
    assert states[i + 1].(txs := s.txs) == Committed(s, tx.write);
    if tx.req.DeleteUser? && tx.write == NoWrite {
      assert s.users - {tx.req.user} == s.users;
    }
  }
}
