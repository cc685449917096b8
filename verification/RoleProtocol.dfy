/** Role assignment against role deletion.

    Handlers of auth.py and custom_roles.py run as database transactions that interleave statement by
    statement.  Every statement reads committed rows only, a write stays private to its transaction until
    commit, and the row locks a statement takes are held until the transaction commits or rolls back.
    The unique constraints on users.email and custom_roles(account_id, name) make an insert wait for a
    transaction that has an unfinished write of the same key.
 */
module RoleProtocol {
  import opened Strings

  type Id = nat

  const FIXED_ROLES: set<string> := {"ADMIN", "SECURITY_ENGINEER", "DEVELOPER", "MEMBER", "AUDITOR", "VIEWER"}
  const PLATFORM_ADMIN := "PLATFORM_ADMIN"
  const RESERVED_NAMES: set<string> := FIXED_ROLES + {PLATFORM_ADMIN, "GUEST"}
  const ROLE_NAME_LIMIT := 100
  const USER_ROLE_LIMIT := 50

  datatype User = User(account: Id, email: string, role: string)
  datatype Role = Role(account: Id, name: string, permissions: set<string>)

  /** One call of a handler.  Role names arrive upper-cased, custom role names also stripped. */
  datatype Request =
    | Invite(account: Id, email: string, role: string)
    | ChangeRole(account: Id, user: Id, role: string, callerIsPlatformAdmin: bool)
    | DeleteUser(account: Id, user: Id)
    | CreateRole(account: Id, name: string, permissions: set<string>)
    | EditRole(account: Id, roleId: Id, permissions: set<string>)
    | DeleteRole(account: Id, roleId: Id)

  /** Where a transaction stands: what its finished statements have established. */
  datatype Stage =
    | Begin
    | AwaitShare(row: Id)          // the FOR SHARE select has found its row and wants the lock
    | Granted                      // the role may be assigned, or the new name is free
    | Loaded(oldRole: string)      // the user row has been read, or the email is free
    | AwaitExclusive(row: Id)      // FOR UPDATE, or the UPDATE of a role row, has found its row
    | Owned(name: string)          // the deleter has the role row
    | Unheld(name: string)         // the deleter has counted no holder
    | Flushed                      // every write has been sent, only the commit is left

  datatype Write =
    | NoWrite
    | AddUser(id: Id, user: User)
    | SetUserRole(id: Id, role: string)
    | DropUser(id: Id)
    | AddRole(id: Id, row: Role)
    | SetPermissions(id: Id, permissions: set<string>)
    | DropRole(id: Id)

  datatype Tx = Tx(req: Request, stage: Stage, shared: Option<Id>, exclusive: Option<Id>, write: Write)

  /** Committed tables, transactions in flight, and every row id handed out so far (uuid4 never repeats one). */
  datatype State = State(users: map<Id, User>, roles: map<Id, Role>, txs: map<Id, Tx>, issued: set<Id>)

  /** Whether the database honours FOR SHARE and FOR UPDATE.  PostgreSQL honours both, SQLite neither. */
  datatype Locking = Locking(share: bool, update: bool)

  predicate ValidRoleName(name: string) {
    name != "" && |name| <= ROLE_NAME_LIMIT && name !in RESERVED_NAMES
  }

  predicate Named(row: Role, account: Id, name: string) {
    row.account == account && row.name == name
  }

  predicate RoleExists(roles: map<Id, Role>, account: Id, name: string) {
    exists r :: r in roles && Named(roles[r], account, name)
  }

  ghost function FindRole(roles: map<Id, Role>, account: Id, name: string): (row: Option<Id>)
    ensures row.Some? ==> row.value in roles && Named(roles[row.value], account, name)
    ensures row.None? ==> !RoleExists(roles, account, name)
  {
    if RoleExists(roles, account, name) then
      var r :| r in roles && Named(roles[r], account, name); Some(r)
    else None
  }

  predicate EmailTaken(users: map<Id, User>, email: string) {
    exists u :: u in users && users[u].email == email
  }

  predicate Holds(user: User, account: Id, name: string) {
    user.account == account && user.role == name
  }

  /** The in-use count of delete_custom_role is not zero. */
  predicate Assigned(users: map<Id, User>, account: Id, name: string) {
    exists u :: u in users && Holds(users[u], account, name)
  }

  // ----- What a statement has to wait for -----

  datatype Need =
    | Nothing
    | ShareRow(row: Id)
    | ExclusiveRow(row: Id)
    | UserRow(row: Id)
    | Email(email: string)
    | RoleKey(account: Id, name: string)

  function NextNeed(cfg: Locking, tx: Tx): Need {
    match (tx.req, tx.stage)
    case (_, AwaitShare(row)) => if cfg.share then ShareRow(row) else Nothing
    case (EditRole(_, _, _), AwaitExclusive(row)) => ExclusiveRow(row)
    case (DeleteRole(_, _), AwaitExclusive(row)) => if cfg.update then ExclusiveRow(row) else Nothing
    case (DeleteRole(_, roleId), Unheld(_)) => ExclusiveRow(roleId)
    case (CreateRole(account, name, _), Granted) => RoleKey(account, name)
    case (Invite(_, email, _), Loaded(_)) => Email(email)
    case (ChangeRole(_, user, role, _), Loaded(oldRole)) => if oldRole == role then Nothing else UserRow(user)
    case (DeleteUser(_, user), Loaded(_)) => UserRow(user)
    case _ => Nothing
  }

  predicate WritesUserRow(w: Write, row: Id) {
    (w.SetUserRole? || w.DropUser?) && w.id == row
  }

  /** `holder` keeps a lock that `need` has to wait for. */
  predicate Conflicts(s: State, holder: Tx, need: Need) {
    match need
    case Nothing => false
    case ShareRow(row) => holder.exclusive == Some(row)
    case ExclusiveRow(row) => holder.exclusive == Some(row) || holder.shared == Some(row)
    case UserRow(row) => WritesUserRow(holder.write, row)
    case Email(email) =>
      || (holder.write.AddUser? && holder.write.user.email == email)
      || ((holder.write.SetUserRole? || holder.write.DropUser?)
          && holder.write.id in s.users && s.users[holder.write.id].email == email)
    case RoleKey(account, name) =>
      || (holder.write.AddRole? && Named(holder.write.row, account, name))
      || ((holder.write.SetPermissions? || holder.write.DropRole?)
          && holder.write.id in s.roles && Named(s.roles[holder.write.id], account, name))
  }

  predicate Waits(cfg: Locking, s: State, t: Id, holder: Id) {
    t in s.txs && holder in s.txs && t != holder && Conflicts(s, s.txs[holder], NextNeed(cfg, s.txs[t]))
  }

  ghost predicate Blocked(cfg: Locking, s: State, t: Id) {
    exists holder :: Waits(cfg, s, t, holder)
  }

  // ----- One statement of one transaction -----

  /** What a statement does to its own transaction: roll back, or carry on. */
  datatype Outcome = RolledBack | Now(tx: Tx)

  ghost function CheckRole(s: State, tx: Tx, role: string): Outcome {
    if role in FIXED_ROLES then Now(tx.(stage := Granted))
    else match FindRole(s.roles, tx.req.account, role)
      case None => RolledBack
      case Some(row) => Now(tx.(stage := AwaitShare(row)))
  }

  ghost function First(s: State, tx: Tx): Outcome
  {
    match tx.req
    case Invite(account, email, role) => CheckRole(s, tx, role)
    case ChangeRole(account, user, role, callerIsPlatformAdmin) =>
      if role == PLATFORM_ADMIN then
        if callerIsPlatformAdmin then Now(tx.(stage := Granted)) else RolledBack
      else CheckRole(s, tx, role)
    case DeleteUser(account, user) =>
      if user in s.users && s.users[user].account == account then Now(tx.(stage := Loaded(s.users[user].role)))
      else RolledBack
    case CreateRole(account, name, permissions) =>
      if ValidRoleName(name) && !RoleExists(s.roles, account, name) then Now(tx.(stage := Granted)) else RolledBack
    case EditRole(account, roleId, permissions) =>
      if roleId in s.roles && s.roles[roleId].account == account then Now(tx.(stage := AwaitExclusive(roleId)))
      else RolledBack
    case DeleteRole(account, roleId) =>
      if roleId in s.roles && s.roles[roleId].account == account then Now(tx.(stage := AwaitExclusive(roleId)))
      else RolledBack
  }

  ghost function AfterGrant(s: State, tx: Tx, newId: Id): Outcome {
    match tx.req
    case Invite(account, email, role) =>
      if EmailTaken(s.users, email) then RolledBack else Now(tx.(stage := Loaded("")))
    case ChangeRole(account, user, role, _) =>
      if user in s.users && s.users[user].account == account then Now(tx.(stage := Loaded(s.users[user].role)))
      else RolledBack
    case CreateRole(account, name, permissions) =>
      if RoleExists(s.roles, account, name) then RolledBack
      else Now(tx.(stage := Flushed, write := AddRole(newId, Role(account, name, permissions))))
    case _ => RolledBack
  }

  ghost function AfterLoad(s: State, tx: Tx, newId: Id): Outcome
    requires tx.stage.Loaded?
  {
    match tx.req
    case Invite(account, email, role) =>
      if EmailTaken(s.users, email) || |role| > USER_ROLE_LIMIT then RolledBack
      else Now(tx.(stage := Flushed, write := AddUser(newId, User(account, email, role))))
    case ChangeRole(account, user, role, _) =>
      if tx.stage.oldRole == role then Now(tx.(stage := Flushed))
      else if user !in s.users || |role| > USER_ROLE_LIMIT then RolledBack
      else Now(tx.(stage := Flushed, write := SetUserRole(user, role)))
    case DeleteUser(account, user) =>
      Now(tx.(stage := Flushed, write := if user in s.users then DropUser(user) else NoWrite))
    case _ => RolledBack
  }

  function OwnRow(cfg: Locking, s: State, tx: Tx, row: Id): Outcome {
    if row !in s.roles then RolledBack
    else match tx.req
      case EditRole(_, _, permissions) =>
        Now(tx.(stage := Flushed, exclusive := Some(row), write := SetPermissions(row, permissions)))
      case DeleteRole(_, _) =>
        Now(tx.(stage := Owned(s.roles[row].name), exclusive := if cfg.update then Some(row) else None))
      case _ => RolledBack
  }

  /** Every statement but the commit. */
  ghost function Statement(cfg: Locking, s: State, tx: Tx, newId: Id): Outcome
    requires !tx.stage.Flushed?
  {
    match tx.stage
    case Begin => First(s, tx)
    case AwaitShare(row) =>
      if row in s.roles then Now(tx.(stage := Granted, shared := if cfg.share then Some(row) else None))
      else RolledBack
    case Granted => AfterGrant(s, tx, newId)
    case Loaded(_) => AfterLoad(s, tx, newId)
    case AwaitExclusive(row) => OwnRow(cfg, s, tx, row)
    case Owned(name) =>
      if Assigned(s.users, tx.req.account, name) then RolledBack else Now(tx.(stage := Unheld(name)))
    case Unheld(_) =>
      if !tx.req.DeleteRole? then RolledBack
      else
        var row := tx.req.roleId;
        Now(tx.(stage := Flushed, exclusive := Some(row), write := if row in s.roles then DropRole(row) else NoWrite))
  }

  function Committed(s: State, w: Write): State {
    match w
    case NoWrite => s
    case AddUser(id, user) => s.(users := s.users[id := user])
    case SetUserRole(id, role) =>
      if id in s.users then s.(users := s.users[id := s.users[id].(role := role)]) else s
    case DropUser(id) => s.(users := s.users - {id})
    case AddRole(id, row) => s.(roles := s.roles[id := row])
    case SetPermissions(id, permissions) =>
      if id in s.roles then s.(roles := s.roles[id := s.roles[id].(permissions := permissions)]) else s
    case DropRole(id) => s.(roles := s.roles - {id})
  }

  // ----- Runs -----

  datatype Event =
    | Start(t: Id, req: Request)
    | Advance(t: Id, newId: Id)
    | Rollback(t: Id)

  ghost predicate Enabled(cfg: Locking, s: State, e: Event) {
    match e
    case Start(t, req) => t !in s.txs
    case Advance(t, newId) => t in s.txs && !Blocked(cfg, s, t) && newId !in s.issued
    case Rollback(t) => t in s.txs
  }

  ghost function Next(cfg: Locking, s: State, e: Event): State
    requires Enabled(cfg, s, e)
  {
    match e
    case Start(t, req) => s.(txs := s.txs[t := Tx(req, Begin, None, None, NoWrite)])
    case Rollback(t) => s.(txs := s.txs - {t})
    case Advance(t, newId) =>
      var tx := s.txs[t];
      if tx.stage.Flushed? then Committed(s, tx.write).(txs := s.txs - {t})
      else match Statement(cfg, s, tx, newId)
        case RolledBack => s.(txs := s.txs - {t})
        case Now(tx') => s.(txs := s.txs[t := tx'], issued := s.issued + {newId})
  }

  /** The guarantee: every committed user has a fixed role, PLATFORM_ADMIN, or a custom role of the same account. */
  ghost predicate RoleStands(roles: map<Id, Role>, user: User) {
    user.role in FIXED_ROLES || user.role == PLATFORM_ADMIN || RoleExists(roles, user.account, user.role)
  }

  ghost predicate AllRolesStand(s: State) {
    forall u :: u in s.users ==> RoleStands(s.roles, s.users[u])
  }

  ghost predicate RoleKeysUnique(roles: map<Id, Role>) {
    forall r, q :: r in roles && q in roles && Named(roles[q], roles[r].account, roles[r].name) ==> r == q
  }

  ghost predicate NamesValid(roles: map<Id, Role>) {
    forall r :: r in roles ==> ValidRoleName(roles[r].name)
  }

  ghost predicate EmailsUnique(users: map<Id, User>) {
    forall u, v :: u in users && v in users && users[u].email == users[v].email ==> u == v
  }

  /** A quiet database whose tables are consistent. */
  ghost predicate Initial(s: State) {
    && s.txs == map[]
    && AllRolesStand(s)
    && RoleKeysUnique(s.roles)
    && NamesValid(s.roles)
    && EmailsUnique(s.users)
    && s.users.Keys <= s.issued
    && s.roles.Keys <= s.issued
  }

  ghost predicate IsRun(cfg: Locking, states: seq<State>, events: seq<Event>) {
    && |states| == |events| + 1
    && Initial(states[0])
    && forall i :: 0 <= i < |events| ==>
      Enabled(cfg, states[i], events[i]) && states[i + 1] == Next(cfg, states[i], events[i])
  }
}
