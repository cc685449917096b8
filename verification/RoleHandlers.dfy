/** The handlers of auth.py and custom_roles.py as they run when nothing interleaves, and the proof that the protocol,
    left alone with one of them, does the same. */
module RoleHandlers {
  import opened Strings
  import opened RoleProtocol
  import opened RoleSafety

  predicate Assignable(roles: map<Id, Role>, account: Id, role: string) {
    role in FIXED_ROLES || RoleExists(roles, account, role)
  }

  /** When a request, taken by itself, is carried out. */
  predicate Succeeds(req: Request, users: map<Id, User>, roles: map<Id, Role>) {
    match req
    case Invite(account, email, role) =>
      Assignable(roles, account, role) && !EmailTaken(users, email) && |role| <= USER_ROLE_LIMIT
    case ChangeRole(account, user, role, callerIsPlatformAdmin) =>
      && (if role == PLATFORM_ADMIN then callerIsPlatformAdmin else Assignable(roles, account, role))
      && user in users && users[user].account == account
      && (users[user].role == role || |role| <= USER_ROLE_LIMIT)
    case DeleteUser(account, user) => user in users && users[user].account == account
    case CreateRole(account, name, _) => ValidRoleName(name) && !RoleExists(roles, account, name)
    case EditRole(account, roleId, _) => roleId in roles && roles[roleId].account == account
    case DeleteRole(account, roleId) =>
      roleId in roles && roles[roleId].account == account && !Assigned(users, account, roles[roleId].name)
  }

  predicate Writes(req: Request, users: map<Id, User>) {
    req.ChangeRole? && req.user in users ==> users[req.user].role != req.role
  }

  ghost function Tables(users: map<Id, User>, roles: map<Id, Role>): State {
    State(users, roles, map[], {})
  }

  /** The tables after a request that was answered with `ok`. */
  ghost predicate Answered(req: Request, ok: bool, users: map<Id, User>, roles: map<Id, Role>,
                           users': map<Id, User>, roles': map<Id, Role>) {
    && (ok <==> Succeeds(req, users, roles))
    && (if ok then Effect(req, Writes(req, users), Tables(users, roles), Tables(users', roles'))
        else users' == users && roles' == roles)
  }

  ghost predicate Consistent(users: map<Id, User>, roles: map<Id, Role>) {
    && (forall u :: u in users ==> RoleStands(roles, users[u]))
    && RoleKeysUnique(roles) && NamesValid(roles) && EmailsUnique(users)
  }

  /** Once a role has been created, it can be given to a new user, or to a user who has another role, exactly when its
      name fits the column of a user's role. */
  lemma CreatedRoleIsAssignableExactly(account: Id, name: string, permissions: set<string>, users: map<Id, User>,
                                       roles: map<Id, Role>, users': map<Id, User>, roles': map<Id, Role>)
    requires Answered(CreateRole(account, name, permissions), true, users, roles, users', roles')
    ensures forall email :: !EmailTaken(users', email) ==>
              (Succeeds(Invite(account, email, name), users', roles') <==> |name| <= 50)
    ensures forall user: Id, admin :: user in users' && users'[user].account == account && users'[user].role != name ==>
              (Succeeds(ChangeRole(account, user, name, admin), users', roles') <==> |name| <= 50)
  {
    var id: Id :| id !in roles && roles' == roles[id := Role(account, name, permissions)];
    assert id in roles' && Named(roles'[id], account, name);
    assert RoleExists(roles', account, name);
    assert PLATFORM_ADMIN in RESERVED_NAMES;
  }

  const LONG_NAME: string := seq(51, _ => 'R')

  /** A name of 51 characters: the role is created, and cannot be given to the first user of the account. */
  lemma LongRoleIsNeverAssigned(account: Id, permissions: set<string>)
    ensures var roles: map<Id, Role> := map[0 := Role(account, LONG_NAME, permissions)];
            && Answered(CreateRole(account, LONG_NAME, permissions), true, map[], map[], map[], roles)
            && !Succeeds(Invite(account, "a@b.c", LONG_NAME), map[], roles)
  {
    var roles: map<Id, Role> := map[0 := Role(account, LONG_NAME, permissions)];
    LongNameIsValid();
    var none: map<Id, Role>, first: Id := map[], 0;
    var before, after := Tables(map[], none), Tables(map[], roles);
    assert !RoleExists(none, account, LONG_NAME) && first !in before.roles;
    assert after == before.(roles := before.roles[first := Role(account, LONG_NAME, permissions)]);
    CreatedRoleIsAssignableExactly(account, LONG_NAME, permissions, map[], map[], map[], roles);
  }

  lemma LongNameIsValid()
    ensures ValidRoleName(LONG_NAME) && |LONG_NAME| == 51
  {
    assert forall name :: name in RESERVED_NAMES ==> |name| < 51;
  }

  // ----- Every answered request keeps the tables consistent -----

  lemma UsersKept(req: Request, users: map<Id, User>, roles: map<Id, Role>, users': map<Id, User>,
                  roles': map<Id, Role>)
    requires Consistent(users, roles) && Answered(req, true, users, roles, users', roles')
    requires req.Invite? || req.ChangeRole? || req.DeleteUser?
    ensures Consistent(users', roles')
  {
    assert roles' == roles;
  }

  lemma RolesKept(req: Request, users: map<Id, User>, roles: map<Id, Role>, users': map<Id, User>,
                  roles': map<Id, Role>)
    requires Consistent(users, roles) && Answered(req, true, users, roles, users', roles')
    requires req.CreateRole? || req.EditRole? || req.DeleteRole?
    ensures Consistent(users', roles')
  {
    assert users' == users;
    forall u | u in users
      ensures RoleStands(roles', users[u])
    {
      if RoleExists(roles, users[u].account, users[u].role) {
        var r :| r in roles && Named(roles[r], users[u].account, users[u].role);
        if req.DeleteRole? { assert Holds(users[u], users[u].account, users[u].role); }
        assert r in roles' && Named(roles'[r], users[u].account, users[u].role);
      }
    }
  }

  class Database {
    var users: map<Id, User>
    var roles: map<Id, Role>

    constructor ()
      ensures users == map[] && roles == map[] && Valid()
    {
      users, roles := map[], map[];
    }

    ghost predicate Valid()
      reads this
    {
      Consistent(users, roles)
    }

    method InviteUser(account: Id, email: string, role: string, newId: Id) returns (statusCode: nat)
      requires Valid() && newId !in users
      modifies this
      ensures Valid()
      ensures var req := Invite(account, email, Upper(role));
              && Answered(req, statusCode == 200, old(users), old(roles), users, roles)
              && (statusCode == 400 <==>
                    && req.role !in {"ADMIN", "SECURITY_ENGINEER", "DEVELOPER", "MEMBER", "AUDITOR", "VIEWER"}
                    && forall r :: r in old(roles) ==> !(old(roles)[r].account == account
                                                        && old(roles)[r].name == req.role))
              && (statusCode == 409 <==> Assignable(old(roles), account, req.role) && EmailTaken(old(users), email))
              && statusCode in {200, 400, 409, 500}
    {
      var upper := Upper(role);
      ghost var req := Invite(account, email, upper);
      if !Assignable(roles, account, upper) { return 400; }
      if EmailTaken(users, email) { return 409; }
      if |upper| > USER_ROLE_LIMIT { return 500; }
      users := users[newId := User(account, email, upper)];
      statusCode := 200;
      UsersKept(req, old(users), old(roles), users, roles);
    }

    method UpdateUserRole(account: Id, user: Id, role: string, callerRole: string) returns (statusCode: nat)
      requires Valid()
      modifies this
      ensures Valid()
      ensures var req := ChangeRole(account, user, Upper(role), callerRole == PLATFORM_ADMIN);
              && Answered(req, statusCode == 200, old(users), old(roles), users, roles)
              && (statusCode == 403 <==> req.role == PLATFORM_ADMIN && callerRole != PLATFORM_ADMIN)
              && (statusCode == 400 <==> req.role != PLATFORM_ADMIN && !Assignable(old(roles), account, req.role))
              && (statusCode == 404 <==>
                    && (if req.role == PLATFORM_ADMIN then callerRole == PLATFORM_ADMIN
                        else Assignable(old(roles), account, req.role))
                    && !(user in old(users) && old(users)[user].account == account))
              && statusCode in {200, 400, 403, 404, 500}
    {
      var upper := Upper(role);
      ghost var req := ChangeRole(account, user, upper, callerRole == PLATFORM_ADMIN);
      if upper == PLATFORM_ADMIN {
        if callerRole != PLATFORM_ADMIN { return 403; }
      } else if !Assignable(roles, account, upper) {
        return 400;
      }
      if !(user in users && users[user].account == account) { return 404; }
      if users[user].role != upper {
        if |upper| > USER_ROLE_LIMIT { return 500; }
        users := users[user := users[user].(role := upper)];
      }
      statusCode := 200;
      UsersKept(req, old(users), old(roles), users, roles);
    }

    method DeleteUser(account: Id, user: Id) returns (statusCode: nat)
      requires Valid()
      modifies this
      ensures Valid()
      ensures Answered(Request.DeleteUser(account, user), statusCode == 200, old(users), old(roles), users, roles)
      ensures statusCode in {200, 404}
    {
      if !(user in users && users[user].account == account) { return 404; }
      users := users - {user};
      statusCode := 200;
      UsersKept(Request.DeleteUser(account, user), old(users), old(roles), users, roles);
    }

    /** `known` holds the permissions there are. */
    method CreateCustomRole(account: Id, name: string, permissions: set<string>, known: set<string>, newId: Id)
      returns (statusCode: nat)
      requires Valid() && newId !in roles
      modifies this
      ensures Valid()
      ensures var req := CreateRole(account, Upper(Strip(name)), permissions);
              if permissions == {} || !(permissions <= known) then
                statusCode == 400 && users == old(users) && roles == old(roles)
              else
                && Answered(req, statusCode == 200, old(users), old(roles), users, roles)
                && (statusCode == 400 <==>
                      || !(1 <= |req.name| <= 100)
                      || req.name in {"ADMIN", "SECURITY_ENGINEER", "DEVELOPER", "MEMBER", "AUDITOR", "VIEWER",
                                      "PLATFORM_ADMIN", "GUEST"})
                && (statusCode == 409 <==> ValidRoleName(req.name) && RoleExists(old(roles), account, req.name))
                && statusCode in {200, 400, 409}
                && (statusCode == 200 ==> roles == old(roles)[newId := Role(account, req.name, permissions)])
    {
      var validated := Upper(Strip(name));
      if !ValidRoleName(validated) { return 400; }
      if permissions == {} || !(permissions <= known) { return 400; }
      if RoleExists(roles, account, validated) { return 409; }
      roles := roles[newId := Role(account, validated, permissions)];
      statusCode := 200;
      RolesKept(CreateRole(account, validated, permissions), old(users), old(roles), users, roles);
    }

    method UpdateCustomRole(account: Id, roleId: Id, permissions: set<string>, known: set<string>)
      returns (statusCode: nat)
      requires Valid()
      modifies this
      ensures Valid()
      ensures if permissions == {} || !(permissions <= known) then
                statusCode == 400 && users == old(users) && roles == old(roles)
              else
                && Answered(EditRole(account, roleId, permissions), statusCode == 200,
                            old(users), old(roles), users, roles)
                && statusCode in {200, 404}
    {
      if permissions == {} || !(permissions <= known) { return 400; }
      if !(roleId in roles && roles[roleId].account == account) { return 404; }
      roles := roles[roleId := roles[roleId].(permissions := permissions)];
      statusCode := 200;
      RolesKept(EditRole(account, roleId, permissions), old(users), old(roles), users, roles);
    }

    method DeleteCustomRole(account: Id, roleId: Id) returns (statusCode: nat)
      requires Valid()
      modifies this
      ensures Valid() && Answered(DeleteRole(account, roleId), statusCode == 200, old(users), old(roles), users, roles)
      ensures statusCode == 409 <==>
                roleId in old(roles) && old(roles)[roleId].account == account
                && Assigned(old(users), account, old(roles)[roleId].name)
      ensures statusCode == 404 <==> !(roleId in old(roles) && old(roles)[roleId].account == account)
      ensures statusCode in {200, 404, 409}
    {
      if !(roleId in roles && roles[roleId].account == account) { return 404; }
      if Assigned(users, account, roles[roleId].name) { return 409; }
      roles := roles - {roleId};
      statusCode := 200;
      RolesKept(DeleteRole(account, roleId), old(users), old(roles), users, roles);
    }
  }

  // ----- The names that custom roles are stored under -----

  /** A stored name has no lower-case letter and no blank at either end. */
  lemma StoredNamesAreNormal(name: string)
    ensures var stored := Upper(Strip(name));
            && (forall c :: c in stored ==> !('a' <= c <= 'z'))
            && (stored != "" ==> !WhiteSpace(stored[0]) && !WhiteSpace(stored[|stored| - 1]))
  {
    UpperStripped(name);
    StripExactly(Upper(name));
    var stored := Upper(Strip(name));
    if stored != "" {
      BlankExactly(stored[0]);
      BlankExactly(stored[|stored| - 1]);
    }
  }

  /** Blanks around the requested name and the case of its letters make no difference. */
  lemma PaddingAndCaseAreIgnored(name: string, left: string, other: string, right: string)
    requires Blanks(left) && Blanks(right)
    requires |other| == |name| && forall i :: 0 <= i < |name| ==> SameLetter(other[i], name[i])
    ensures Upper(Strip(left + other + right)) == Upper(Strip(name))
  {
    StripIgnoresPadding(other, left, right);
    SameUpperExactly(other, name);
    UpperStripped(other);
    UpperStripped(name);
  }

  /** A role that was created under `name` is meant by a later request exactly when that spells the name without its
      outer blanks, in whatever case: requests that assign roles do not strip. */
  lemma CreatedRoleIsMeantExactly(account: Id, name: string, permissions: set<string>, spelled: string)
    ensures Named(Role(account, Upper(Strip(name)), permissions), account, Upper(spelled)) <==>
              exists before, middle, after :: Stripped(name, before, middle, after)
                && |spelled| == |middle| && forall i :: 0 <= i < |middle| ==> SameLetter(middle[i], spelled[i])
  {
    StripExactly(name);
    SameUpperExactly(Strip(name), spelled);
    forall before, middle, after | Stripped(name, before, middle, after)
      ensures middle == Strip(name)
    {
      StripIs(name, before, middle, after);
    }
  }

  // ----- The protocol with a single transaction -----

  /** Up to `n` further statements of the only transaction; `ids` supplies new row ids. */
  ghost function Alone(s: State, t: Id, ids: nat -> Id, n: nat): State
    decreases n
  {
    if n == 0 || t !in s.txs || !Enabled(BOTH_LOCKS, s, Advance(t, ids(n))) then s
    else Alone(Next(BOTH_LOCKS, s, Advance(t, ids(n))), t, ids, n - 1)
  }

  /** The ids still to be used are new. */
  ghost predicate Unused(s: State, ids: nat -> Id, n: nat) {
    && (forall i :: 0 <= i <= n ==> ids(i) !in s.issued)
    && (forall i, j :: 0 <= i < j <= n ==> ids(i) != ids(j))
    && s.users.Keys <= s.issued && s.roles.Keys <= s.issued
  }

  function With(s: State, t: Id, tx: Tx, newId: Id): State {
    s.(txs := map[t := tx], issued := s.issued + {newId})
  }

  lemma AloneStep(s: State, t: Id, tx: Tx, ids: nat -> Id, n: nat)
    requires s.txs == map[t := tx] && n > 0 && Unused(s, ids, n)
    ensures tx.stage.Flushed? ==> Alone(s, t, ids, n) == Committed(s, tx.write).(txs := map[])
    ensures !tx.stage.Flushed? ==>
      match Statement(BOTH_LOCKS, s, tx, ids(n)) {
        case RolledBack => Alone(s, t, ids, n) == s.(txs := map[])
        case Now(tx') =>
          Alone(s, t, ids, n) == Alone(With(s, t, tx', ids(n)), t, ids, n - 1)
            && Unused(With(s, t, tx', ids(n)), ids, n - 1)
      }
  {
    assert Enabled(BOTH_LOCKS, s, Advance(t, ids(n)));
    var next := Next(BOTH_LOCKS, s, Advance(t, ids(n)));
    if tx.stage.Flushed? {
      assert next.txs == map[];
    } else {
      match Statement(BOTH_LOCKS, s, tx, ids(n)) {
        case RolledBack => assert next.txs == map[];
        case Now(tx') => assert next == With(s, t, tx', ids(n));
      }
    }
  }

  /** The transaction ends, and the request has been answered on the tables that it started from. */
  ghost predicate EndsAnswered(s: State, t: Id, tx: Tx, ids: nat -> Id, n: nat) {
    var end, ok := Alone(s, t, ids, n), Succeeds(tx.req, s.users, s.roles);
    end.txs == map[] && Answered(tx.req, ok, s.users, s.roles, end.users, end.roles)
  }

  /** A statement that goes on hands the answer over to the statements after it. */
  lemma GoesOn(s: State, t: Id, tx: Tx, ids: nat -> Id, n: nat, next: Tx)
    requires s.txs == map[t := tx] && n > 0 && Unused(s, ids, n) && !tx.stage.Flushed? && next.req == tx.req
    requires Statement(BOTH_LOCKS, s, tx, ids(n)) == Now(next)
    requires EndsAnswered(With(s, t, next, ids(n)), t, next, ids, n - 1)
    ensures EndsAnswered(s, t, tx, ids, n)
  {
    AloneStep(s, t, tx, ids, n);
  }

  lemma InviteFromLoaded(s: State, t: Id, tx: Tx, ids: nat -> Id, n: nat)
    requires s.txs == map[t := tx] && n >= 2 && Unused(s, ids, n)
    requires tx.req.Invite? && tx.stage == Loaded("")
    requires Assignable(s.roles, tx.req.account, tx.req.role) && !EmailTaken(s.users, tx.req.email)
    ensures EndsAnswered(s, t, tx, ids, n)
  {
    AloneStep(s, t, tx, ids, n);
    if |tx.req.role| <= USER_ROLE_LIMIT {
      var user := User(tx.req.account, tx.req.email, tx.req.role);
      var flushed := tx.(stage := Flushed, write := AddUser(ids(n), user));
      AloneStep(With(s, t, flushed, ids(n)), t, flushed, ids, n - 1);
      assert ids(n) !in s.users;
    }
  }

  lemma InviteFromGrant(s: State, t: Id, tx: Tx, ids: nat -> Id, n: nat)
    requires s.txs == map[t := tx] && n >= 3 && Unused(s, ids, n)
    requires tx.req.Invite? && tx.stage.Granted? && Assignable(s.roles, tx.req.account, tx.req.role)
    ensures EndsAnswered(s, t, tx, ids, n)
  {
    AloneStep(s, t, tx, ids, n);
    if !EmailTaken(s.users, tx.req.email) {
      var loaded := tx.(stage := Loaded(""));
      InviteFromLoaded(With(s, t, loaded, ids(n)), t, loaded, ids, n - 1);
      GoesOn(s, t, tx, ids, n, loaded);
    }
  }

  lemma ChangeFromLoaded(s: State, t: Id, tx: Tx, ids: nat -> Id, n: nat)
    requires s.txs == map[t := tx] && n >= 2 && Unused(s, ids, n)
    requires tx.req.ChangeRole? && tx.write == NoWrite
    requires tx.req.user in s.users && s.users[tx.req.user].account == tx.req.account
    requires tx.stage == Loaded(s.users[tx.req.user].role)
    requires if tx.req.role == PLATFORM_ADMIN then tx.req.callerIsPlatformAdmin
             else Assignable(s.roles, tx.req.account, tx.req.role)
    ensures EndsAnswered(s, t, tx, ids, n)
  {
    AloneStep(s, t, tx, ids, n);
    var user, role := tx.req.user, tx.req.role;
    if s.users[user].role == role {
      var flushed := tx.(stage := Flushed);
      AloneStep(With(s, t, flushed, ids(n)), t, flushed, ids, n - 1);
    } else if |role| <= USER_ROLE_LIMIT {
      var flushed := tx.(stage := Flushed, write := SetUserRole(user, role));
      AloneStep(With(s, t, flushed, ids(n)), t, flushed, ids, n - 1);
    }
  }

  lemma ChangeFromGrant(s: State, t: Id, tx: Tx, ids: nat -> Id, n: nat)
    requires s.txs == map[t := tx] && n >= 3 && Unused(s, ids, n)
    requires tx.req.ChangeRole? && tx.write == NoWrite && tx.stage.Granted?
    requires if tx.req.role == PLATFORM_ADMIN then tx.req.callerIsPlatformAdmin
             else Assignable(s.roles, tx.req.account, tx.req.role)
    ensures EndsAnswered(s, t, tx, ids, n)
  {
    AloneStep(s, t, tx, ids, n);
    var user := tx.req.user;
    if user in s.users && s.users[user].account == tx.req.account {
      var loaded := tx.(stage := Loaded(s.users[user].role));
      ChangeFromLoaded(With(s, t, loaded, ids(n)), t, loaded, ids, n - 1);
      GoesOn(s, t, tx, ids, n, loaded);
    }
  }

  lemma FromGrant(s: State, t: Id, tx: Tx, ids: nat -> Id, n: nat)
    requires s.txs == map[t := tx] && n >= 3 && Unused(s, ids, n)
    requires Assigns(tx.req) && tx.write == NoWrite && tx.stage.Granted?
    requires if tx.req.ChangeRole? && tx.req.role == PLATFORM_ADMIN then tx.req.callerIsPlatformAdmin
             else Assignable(s.roles, tx.req.account, tx.req.role)
    ensures EndsAnswered(s, t, tx, ids, n)
  {
    if tx.req.Invite? { InviteFromGrant(s, t, tx, ids, n); } else { ChangeFromGrant(s, t, tx, ids, n); }
  }

  lemma FromAwaitShare(s: State, t: Id, tx: Tx, ids: nat -> Id, n: nat, row: Id)
    requires s.txs == map[t := tx] && n >= 4 && Unused(s, ids, n)
    requires Assigns(tx.req) && tx.write == NoWrite && tx.stage == AwaitShare(row)
    requires row in s.roles && Named(s.roles[row], tx.req.account, tx.req.role)
    requires !(tx.req.ChangeRole? && tx.req.role == PLATFORM_ADMIN)
    ensures EndsAnswered(s, t, tx, ids, n)
  {
    var locked := tx.(stage := Granted, shared := Some(row));
    FromGrant(With(s, t, locked, ids(n)), t, locked, ids, n - 1);
    GoesOn(s, t, tx, ids, n, locked);
  }

  lemma StartsGranted(s: State, t: Id, tx: Tx, ids: nat -> Id)
    requires s.txs == map[t := tx] && Unused(s, ids, 6) && Assigns(tx.req) && tx.stage.Begin? && tx.write == NoWrite
    requires if tx.req.ChangeRole? && tx.req.role == PLATFORM_ADMIN then tx.req.callerIsPlatformAdmin
             else tx.req.role in FIXED_ROLES
    ensures EndsAnswered(s, t, tx, ids, 6)
  {
    var granted := tx.(stage := Granted);
    AloneStep(s, t, tx, ids, 6);
    FromGrant(With(s, t, granted, ids(6)), t, granted, ids, 5);
    GoesOn(s, t, tx, ids, 6, granted);
  }

  lemma StartsWaiting(s: State, t: Id, tx: Tx, ids: nat -> Id, row: Id)
    requires s.txs == map[t := tx] && Unused(s, ids, 6) && Assigns(tx.req) && tx.stage.Begin? && tx.write == NoWrite
    requires !(tx.req.ChangeRole? && tx.req.role == PLATFORM_ADMIN) && tx.req.role !in FIXED_ROLES
    requires FindRole(s.roles, tx.req.account, tx.req.role) == Some(row)
    ensures EndsAnswered(s, t, tx, ids, 6)
  {
    var waiting := tx.(stage := AwaitShare(row));
    AloneStep(s, t, tx, ids, 6);
    FromAwaitShare(With(s, t, waiting, ids(6)), t, waiting, ids, 5, row);
    GoesOn(s, t, tx, ids, 6, waiting);
  }

  /** Invites and role changes: the check of the role comes first. */
  lemma AssignAlone(s: State, t: Id, tx: Tx, ids: nat -> Id)
    requires s.txs == map[t := tx] && Unused(s, ids, 6) && Assigns(tx.req) && tx.stage.Begin? && tx.write == NoWrite
    ensures EndsAnswered(s, t, tx, ids, 6)
  {
    var elevates := tx.req.ChangeRole? && tx.req.role == PLATFORM_ADMIN;
    var atOnce := if elevates then tx.req.callerIsPlatformAdmin else tx.req.role in FIXED_ROLES;
    var found := FindRole(s.roles, tx.req.account, tx.req.role);
    if atOnce {
      StartsGranted(s, t, tx, ids);
    } else if !elevates && found.Some? {
      StartsWaiting(s, t, tx, ids, found.value);
    } else {
      AloneStep(s, t, tx, ids, 6);
    }
  }

  /** The last two statements: the write is sent, then committed. */
  lemma SendsAndCommits(s: State, t: Id, tx: Tx, ids: nat -> Id, n: nat, flushed: Tx)
    requires s.txs == map[t := tx] && n >= 2 && Unused(s, ids, n) && !tx.stage.Flushed?
    requires flushed.stage.Flushed? && flushed.req == tx.req && Statement(BOTH_LOCKS, s, tx, ids(n)) == Now(flushed)
    requires var end := Committed(With(s, t, flushed, ids(n)), flushed.write);
             Answered(tx.req, true, s.users, s.roles, end.users, end.roles)
    ensures EndsAnswered(s, t, tx, ids, n)
  {
    AloneStep(s, t, tx, ids, n);
    Commits(With(s, t, flushed, ids(n)), t, flushed, ids, n - 1);
    GoesOn(s, t, tx, ids, n, flushed);
  }

  lemma Commits(s: State, t: Id, tx: Tx, ids: nat -> Id, n: nat)
    requires s.txs == map[t := tx] && n >= 1 && Unused(s, ids, n) && tx.stage.Flushed?
    requires var end := Committed(s, tx.write); Answered(tx.req, true, s.users, s.roles, end.users, end.roles)
    ensures EndsAnswered(s, t, tx, ids, n)
  {
    AloneStep(s, t, tx, ids, n);
  }

  lemma DeleteUserFromLoaded(s: State, t: Id, tx: Tx, ids: nat -> Id, n: nat)
    requires s.txs == map[t := tx] && n >= 2 && Unused(s, ids, n) && tx.req.DeleteUser? && tx.write == NoWrite
    requires tx.stage.Loaded? && tx.req.user in s.users && s.users[tx.req.user].account == tx.req.account
    ensures EndsAnswered(s, t, tx, ids, n)
  {
    SendsAndCommits(s, t, tx, ids, n, tx.(stage := Flushed, write := DropUser(tx.req.user)));
  }

  lemma DeleteUserAlone(s: State, t: Id, tx: Tx, ids: nat -> Id)
    requires s.txs == map[t := tx] && Unused(s, ids, 6) && tx.req.DeleteUser? && tx.stage.Begin? && tx.write == NoWrite
    ensures EndsAnswered(s, t, tx, ids, 6)
  {
    AloneStep(s, t, tx, ids, 6);
    var user := tx.req.user;
    if user in s.users && s.users[user].account == tx.req.account {
      var loaded := tx.(stage := Loaded(s.users[user].role));
      DeleteUserFromLoaded(With(s, t, loaded, ids(6)), t, loaded, ids, 5);
      GoesOn(s, t, tx, ids, 6, loaded);
    }
  }

  lemma CreateFromGrant(s: State, t: Id, tx: Tx, ids: nat -> Id, n: nat)
    requires s.txs == map[t := tx] && n >= 2 && Unused(s, ids, n) && tx.req.CreateRole? && tx.stage.Granted?
    requires ValidRoleName(tx.req.name) && !RoleExists(s.roles, tx.req.account, tx.req.name)
    ensures EndsAnswered(s, t, tx, ids, n)
  {
    AloneStep(s, t, tx, ids, n);
    var flushed := tx.(stage := Flushed,
      write := AddRole(ids(n), Role(tx.req.account, tx.req.name, tx.req.permissions)));
    AloneStep(With(s, t, flushed, ids(n)), t, flushed, ids, n - 1);
    assert ids(n) !in s.roles;
  }

  lemma CreateRoleAlone(s: State, t: Id, tx: Tx, ids: nat -> Id)
    requires s.txs == map[t := tx] && Unused(s, ids, 6) && tx.req.CreateRole? && tx.stage.Begin? && tx.write == NoWrite
    ensures EndsAnswered(s, t, tx, ids, 6)
  {
    AloneStep(s, t, tx, ids, 6);
    if ValidRoleName(tx.req.name) && !RoleExists(s.roles, tx.req.account, tx.req.name) {
      var granted := tx.(stage := Granted);
      CreateFromGrant(With(s, t, granted, ids(6)), t, granted, ids, 5);
      GoesOn(s, t, tx, ids, 6, granted);
    }
  }

  lemma EditFromAwait(s: State, t: Id, tx: Tx, ids: nat -> Id, n: nat)
    requires s.txs == map[t := tx] && n >= 2 && Unused(s, ids, n) && tx.req.EditRole? && tx.write == NoWrite
    requires tx.req.roleId in s.roles && s.roles[tx.req.roleId].account == tx.req.account
    requires tx.stage == AwaitExclusive(tx.req.roleId)
    ensures EndsAnswered(s, t, tx, ids, n)
  {
    var row := tx.req.roleId;
    var write := SetPermissions(row, tx.req.permissions);
    SendsAndCommits(s, t, tx, ids, n, tx.(stage := Flushed, exclusive := Some(row), write := write));
  }

  lemma EditRoleAlone(s: State, t: Id, tx: Tx, ids: nat -> Id)
    requires s.txs == map[t := tx] && Unused(s, ids, 6) && tx.req.EditRole? && tx.stage.Begin? && tx.write == NoWrite
    ensures EndsAnswered(s, t, tx, ids, 6)
  {
    AloneStep(s, t, tx, ids, 6);
    var row := tx.req.roleId;
    if row in s.roles && s.roles[row].account == tx.req.account {
      assert Succeeds(tx.req, s.users, s.roles);
      var waiting := tx.(stage := AwaitExclusive(row));
      EditFromAwait(With(s, t, waiting, ids(6)), t, waiting, ids, 5);
      GoesOn(s, t, tx, ids, 6, waiting);
    }
  }

  lemma DeleteFromUnheld(s: State, t: Id, tx: Tx, ids: nat -> Id, n: nat)
    requires s.txs == map[t := tx] && n >= 2 && Unused(s, ids, n) && tx.req.DeleteRole? && tx.write == NoWrite
    requires tx.stage.Unheld? && Succeeds(tx.req, s.users, s.roles)
    ensures EndsAnswered(s, t, tx, ids, n)
  {
    var row := tx.req.roleId;
    SendsAndCommits(s, t, tx, ids, n, tx.(stage := Flushed, exclusive := Some(row), write := DropRole(row)));
  }

  lemma DeleteFromOwned(s: State, t: Id, tx: Tx, ids: nat -> Id, n: nat)
    requires s.txs == map[t := tx] && n >= 3 && Unused(s, ids, n) && tx.req.DeleteRole? && tx.write == NoWrite
    requires tx.req.roleId in s.roles && s.roles[tx.req.roleId].account == tx.req.account
    requires tx.stage == Owned(s.roles[tx.req.roleId].name)
    ensures EndsAnswered(s, t, tx, ids, n)
  {
    AloneStep(s, t, tx, ids, n);
    var name := s.roles[tx.req.roleId].name;
    if !Assigned(s.users, tx.req.account, name) {
      var unheld := tx.(stage := Unheld(name));
      DeleteFromUnheld(With(s, t, unheld, ids(n)), t, unheld, ids, n - 1);
      GoesOn(s, t, tx, ids, n, unheld);
    }
  }

  lemma DeleteFromAwait(s: State, t: Id, tx: Tx, ids: nat -> Id, n: nat)
    requires s.txs == map[t := tx] && n >= 4 && Unused(s, ids, n) && tx.req.DeleteRole? && tx.write == NoWrite
    requires tx.req.roleId in s.roles && s.roles[tx.req.roleId].account == tx.req.account
    requires tx.stage == AwaitExclusive(tx.req.roleId)
    ensures EndsAnswered(s, t, tx, ids, n)
  {
    var owned := tx.(stage := Owned(s.roles[tx.req.roleId].name), exclusive := Some(tx.req.roleId));
    AloneStep(s, t, tx, ids, n);
    DeleteFromOwned(With(s, t, owned, ids(n)), t, owned, ids, n - 1);
    GoesOn(s, t, tx, ids, n, owned);
  }

  lemma DeleteRoleAlone(s: State, t: Id, tx: Tx, ids: nat -> Id)
    requires s.txs == map[t := tx] && Unused(s, ids, 6) && tx.req.DeleteRole? && tx.stage.Begin? && tx.write == NoWrite
    ensures EndsAnswered(s, t, tx, ids, 6)
  {
    AloneStep(s, t, tx, ids, 6);
    var row := tx.req.roleId;
    if row in s.roles && s.roles[row].account == tx.req.account {
      var waiting := tx.(stage := AwaitExclusive(row));
      DeleteFromAwait(With(s, t, waiting, ids(6)), t, waiting, ids, 5);
      GoesOn(s, t, tx, ids, 6, waiting);
    }
  }

  /** On a quiet database the protocol answers every request as its handler does: the same
      requests succeed, with the same effect on the tables, and the others leave no trace. */
  lemma ProtocolAloneIsHandler(s: State, t: Id, req: Request, ids: nat -> Id)
    requires Initial(s) && Unused(s, ids, 6)
    ensures var started := Next(BOTH_LOCKS, s, Start(t, req));
            EndsAnswered(started, t, Tx(req, Begin, None, None, NoWrite), ids, 6)
  {
    var tx := Tx(req, Begin, None, None, NoWrite);
    var started := Next(BOTH_LOCKS, s, Start(t, req));
    assert started.txs == map[t := tx] && Unused(started, ids, 6);
    match req {
      case Invite(_, _, _) => AssignAlone(started, t, tx, ids);
      case ChangeRole(_, _, _, _) => AssignAlone(started, t, tx, ids);
      case DeleteUser(_, _) => DeleteUserAlone(started, t, tx, ids);
      case CreateRole(_, _, _) => CreateRoleAlone(started, t, tx, ids);
      case EditRole(_, _, _) => EditRoleAlone(started, t, tx, ids);
      case DeleteRole(_, _) => DeleteRoleAlone(started, t, tx, ids);
    }
  }
}
