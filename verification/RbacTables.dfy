/**
 The RBAC tables, what they mean for a user, and the commands that change them
 (internal/modules/rbac). Codes are unique, so the two entity tables are keyed by
 code; links are by id, as in the schema.
 */
module RbacTables {
  import opened Common
  import opened Text

  type UserId = string
  type Id = nat

  datatype Role = Role(id: Id, name: string)
  datatype Permission = Permission(id: Id, group: string, name: string)

  /** What an idempotent insert does with a link to a user that does not exist: PostgreSQL
      reports the foreign key, MySQL's INSERT IGNORE skips the row. */
  datatype Dialect = Postgres | MySQL

  datatype Db = Db(
    roles: map<string, Role>, permissions: map<string, Permission>,
    userRoles: set<(UserId, Id)>, userPermissions: set<(UserId, Id)>, rolePermissions: set<(Id, Id)>,
    users: set<UserId>, dialect: Dialect)

  const SUPER_ADMIN := "super_admin"
  const MANAGE_RBAC := "rbac.manage"

  predicate ProtectedRole(code: string) { code == SUPER_ADMIN || code == "user" }
  predicate ProtectedPermission(code: string) { code == MANAGE_RBAC }

  predicate IsRoleId(db: Db, id: Id) { exists c :: c in db.roles && db.roles[c].id == id }
  predicate IsPermissionId(db: Db, id: Id) { exists c :: c in db.permissions && db.permissions[c].id == id }

  /** Primary keys and foreign keys of the schema. */
  predicate Consistent(db: Db) {
    && (forall c, d | c in db.roles && d in db.roles && db.roles[c].id == db.roles[d].id :: c == d)
    && (forall c, d | c in db.permissions && d in db.permissions && db.permissions[c].id == db.permissions[d].id ::
        c == d)
    && (forall l | l in db.userRoles :: IsRoleId(db, l.1) && l.0 in db.users)
    && (forall l | l in db.userPermissions :: IsPermissionId(db, l.1) && l.0 in db.users)
    && (forall l | l in db.rolePermissions :: IsRoleId(db, l.0) && IsPermissionId(db, l.1))
  }

  // What the three read queries return for a user, as sets of codes.

  function RoleCodes(db: Db, u: UserId): set<string> {
    set c | c in db.roles && (u, db.roles[c].id) in db.userRoles
  }

  function DirectCodes(db: Db, u: UserId): set<string> {
    set c | c in db.permissions && (u, db.permissions[c].id) in db.userPermissions
  }

  /** Permission codes reached through some role of the user. */
  predicate Inherits(db: Db, u: UserId, code: string) {
    code in db.permissions &&
    exists l :: l in db.rolePermissions && l.1 == db.permissions[code].id && (u, l.0) in db.userRoles
  }

  function InheritedCodes(db: Db, u: UserId): set<string> {
    set c | c in db.permissions && Inherits(db, u, c)
  }

  /** Both databases give the user the same roles, direct and inherited permissions. */
  predicate SameView(a: Db, b: Db, u: UserId) {
    && RoleCodes(a, u) == RoleCodes(b, u)
    && DirectCodes(a, u) == DirectCodes(b, u)
    && InheritedCodes(a, u) == InheritedCodes(b, u)
  }

  function Holders(db: Db, code: string): set<UserId> {
    if code in db.roles then set l | l in db.userRoles && l.1 == db.roles[code].id :: l.0 else {}
  }

  lemma HolderIsMember(db: Db, role: string, u: UserId)
    ensures u in Holders(db, role) <==> role in RoleCodes(db, u)
    ensures u in Holders(db, role) <==> role in db.roles && (u, db.roles[role].id) in db.userRoles
  {
  }

  datatype Error = Invalid | NotFound | Protected | Conflict | ForeignKey

  /** bumped: the command reached its cache bump, whatever became of the bump itself. */
  datatype Result = Done(bumped: bool) | Rejected(error: Error)

  datatype Command =
    | CreateRole(id: Id, code: string, name: string)
    | CreatePermission(id: Id, code: string, group: string, name: string)
    | UpdateRole(code: string, name: string)
    | UpdatePermission(code: string, group: string, name: string)
    | DeleteRole(code: string)
    | DeletePermission(code: string)
    | AssignRole(caller: Option<UserId>, user: UserId, role: string)
    | RevokeRole(user: UserId, role: string)
    | GrantPermission(user: UserId, permission: string)
    | RevokePermission(user: UserId, permission: string)
    | SyncRolePermissions(role: string, codes: seq<string>, ids: map<string, Id>)

  /** The identifiers a command brings are new ones. */
  predicate FreshIds(db: Db, cmd: Command) {
    match cmd
    case CreateRole(id, _, _) => !IsRoleId(db, id)
    case CreatePermission(id, _, _, _) => !IsPermissionId(db, id)
    case SyncRolePermissions(_, codes, ids) =>
      && (forall c | c in Cleaned(codes) :: c in ids)
      && (forall c | c in ids :: !IsPermissionId(db, ids[c]))
      && (forall c, d | c in ids && d in ids && ids[c] == ids[d] :: c == d)
    case _ => true
  }

  /** The distinct trimmed non-blank codes of a request. */
  function Cleaned(codes: seq<string>): set<string> {
    set raw | raw in codes && TrimSpace(raw) != "" :: TrimSpace(raw)
  }

  /** A group label defaults to the part before the first dot, else to General. */
  function GroupFor(code: string): string {
    var i := IndexOf(code, '.');
    if 0 < i < |code| then code[..i] else "General"
  }

  /** The permissions table once every cleaned code has a row. */
  function WithPermissions(db: Db, codes: set<string>, ids: map<string, Id>): map<string, Permission>
    requires codes <= ids.Keys
  {
    map c | c in db.permissions.Keys + codes :: if c in db.permissions then db.permissions[c]
        else Permission(ids[c], GroupFor(c), c)
  }

  function Synced(db: Db, role: string, codes: set<string>, ids: map<string, Id>): Db
    requires role in db.roles && codes <= ids.Keys
  {
    var permissions := WithPermissions(db, codes, ids);
    var id := db.roles[role].id;
    db.(permissions := permissions,
        rolePermissions := (set l | l in db.rolePermissions && l.0 != id)
                         + (set c | c in codes :: (id, permissions[c].id)))
  }

  /** authorizeSuperAdminGrant: who may hand super_admin to user. */
  predicate MayGrant(db: Db, caller: Option<UserId>, user: UserId) {
    caller.None? || (caller.value != user && SUPER_ADMIN in RoleCodes(db, caller.value))
  }

  /** ensureSuperAdminRemains: user is not the last holder. */
  predicate MayRevoke(db: Db, user: UserId, code: string) {
    code in RoleCodes(db, user) ==> |Holders(db, code)| > 1
  }

  /** The commands trim the strings they are given before anything else. */
  function Trimmed(cmd: Command): Command {
    match cmd
    case CreateRole(id, code, name) => CreateRole(id, TrimSpace(code), TrimSpace(name))
    case CreatePermission(id, code, group, name) =>
      CreatePermission(id, TrimSpace(code), TrimSpace(group), TrimSpace(name))
    case UpdateRole(code, name) => UpdateRole(TrimSpace(code), TrimSpace(name))
    case UpdatePermission(code, group, name) => UpdatePermission(TrimSpace(code), TrimSpace(group), TrimSpace(name))
    case DeleteRole(code) => DeleteRole(TrimSpace(code))
    case DeletePermission(code) => DeletePermission(TrimSpace(code))
    case AssignRole(caller, user, role) => AssignRole(caller, TrimSpace(user), TrimSpace(role))
    case RevokeRole(user, role) => RevokeRole(TrimSpace(user), TrimSpace(role))
    case GrantPermission(user, code) => GrantPermission(TrimSpace(user), TrimSpace(code))
    case RevokePermission(user, code) => RevokePermission(TrimSpace(user), TrimSpace(code))
    case SyncRolePermissions(role, codes, ids) => SyncRolePermissions(TrimSpace(role), codes, ids)
  }

  function Execute(db: Db, cmd: Command): (Db, Result)
    requires FreshIds(db, cmd)
  {
    var c := Trimmed(cmd);
    match Verdict(db, c)
    case Rejected(e) => (db, Rejected(e))
    case Done(false) => (if Creates(c) then Change(db, c) else db, Done(false))
    case Done(true) => (Change(db, c), Done(true))
  }

  predicate Creates(cmd: Command) { cmd.CreateRole? || cmd.CreatePermission? }

  /** Whether a trimmed command goes through, decided before anything is written. */
  function Verdict(db: Db, cmd: Command): Result {
    match cmd
    case CreateRole(_, code, name) =>
      if code == "" || name == "" then Rejected(Invalid)
      else if code in db.roles then Rejected(Conflict)
      else Done(false)
    case CreatePermission(_, code, _, name) =>
      if code == "" || name == "" then Rejected(Invalid)
      else if code in db.permissions then Rejected(Conflict)
      else Done(false)
    case UpdateRole(code, name) =>
      if code == "" || name == "" then Rejected(Invalid)
      else if ProtectedRole(code) then Rejected(Protected)
      else if code !in db.roles then Rejected(NotFound)
      else Done(db.roles[code].name != name)
    case UpdatePermission(code, group, name) =>
      if code == "" || name == "" then Rejected(Invalid)
      else if ProtectedPermission(code) then Rejected(Protected)
      else if code !in db.permissions then Rejected(NotFound)
      else Done(NewGroup(db, code, group) != db.permissions[code].group || name != db.permissions[code].name)
    case DeleteRole(code) =>
      if code == "" then Rejected(Invalid)
      else if ProtectedRole(code) then Rejected(Protected)
      else if code !in db.roles then Rejected(NotFound)
      else Done(true)
    case DeletePermission(code) =>
      if code == "" then Rejected(Invalid)
      else if ProtectedPermission(code) then Rejected(Protected)
      else if code !in db.permissions then Rejected(NotFound)
      else Done(true)
    case AssignRole(caller, user, role) =>
      if user == "" || role == "" then Rejected(Invalid)
      else if role !in db.roles then Rejected(NotFound)
      else if role == SUPER_ADMIN && !MayGrant(db, caller, user) then Rejected(Protected)
      else Linked(db, user)
    case RevokeRole(user, role) =>
      if user == "" || role == "" then Rejected(Invalid)
      else if role !in db.roles then Rejected(NotFound)
      else if role == SUPER_ADMIN && !MayRevoke(db, user, role) then Rejected(Protected)
      else Done(true)
    case GrantPermission(user, code) =>
      if user == "" || code == "" then Rejected(Invalid)
      else if code !in db.permissions then Rejected(NotFound)
      else Linked(db, user)
    case RevokePermission(user, code) =>
      if user == "" || code == "" then Rejected(Invalid)
      else if code !in db.permissions then Rejected(NotFound)
      else Done(true)
    case SyncRolePermissions(role, _, _) =>
      if role !in db.roles then Rejected(NotFound) else Done(true)
  }

  /** The outcome of an idempotent insert that links a user. */
  function Linked(db: Db, user: UserId): Result {
    if user in db.users || db.dialect.MySQL? then Done(true) else Rejected(ForeignKey)
  }

  /** The links after it. */
  function WithLink(db: Db, links: set<(UserId, Id)>, user: UserId, id: Id): set<(UserId, Id)> {
    if user in db.users then links + {(user, id)} else links
  }

  /** An empty new group keeps the present one. */
  function NewGroup(db: Db, code: string, group: string): string
    requires code in db.permissions
  {
    if group == "" then db.permissions[code].group else group
  }

  /** The tables after a trimmed command's statements. */
  function Change(db: Db, cmd: Command): Db
    requires FreshIds(db, cmd) && Verdict(db, cmd).Done?
  {
    match cmd
    case CreateRole(id, code, name) => db.(roles := db.roles[code := Role(id, name)])
    case CreatePermission(id, code, group, name) =>
      db.(permissions := db.permissions[code := Permission(id, if group == "" then "General" else group, name)])
    case UpdateRole(code, name) => db.(roles := db.roles[code := db.roles[code].(name := name)])
    case UpdatePermission(code, group, name) =>
      var p := db.permissions[code].(group := NewGroup(db, code, group), name := name);
      db.(permissions := db.permissions[code := p])
    case DeleteRole(code) =>
      var id := db.roles[code].id;
      db.(roles := db.roles - {code},
          userRoles := (set l | l in db.userRoles && l.1 != id),
          rolePermissions := (set l | l in db.rolePermissions && l.0 != id))
    case DeletePermission(code) =>
      var id := db.permissions[code].id;
      db.(permissions := db.permissions - {code},
          userPermissions := (set l | l in db.userPermissions && l.1 != id),
          rolePermissions := (set l | l in db.rolePermissions && l.1 != id))
    case AssignRole(_, user, role) => db.(userRoles := WithLink(db, db.userRoles, user, db.roles[role].id))
    case RevokeRole(user, role) => db.(userRoles := db.userRoles - {(user, db.roles[role].id)})
    case GrantPermission(user, code) =>
      db.(userPermissions := WithLink(db, db.userPermissions, user, db.permissions[code].id))
    case RevokePermission(user, code) => db.(userPermissions := db.userPermissions - {(user, db.permissions[code].id)})
    case SyncRolePermissions(role, codes, ids) => Synced(db, role, Cleaned(codes), ids)
  }

  lemma ExecuteKeepsConsistent(db: Db, cmd: Command)
    requires Consistent(db) && FreshIds(db, cmd)
    ensures Consistent(Execute(db, cmd).0)
  {
    var c := Trimmed(cmd);
    if Verdict(db, c).Done? {
      if c.SyncRolePermissions? {
        SyncKeepsConsistent(db, c.role, Cleaned(c.codes), c.ids);
      } else {
        KeysStayUnique(db, c);
        LinksStayValid(db, c);
      }
    }
  }

  lemma KeysStayUnique(db: Db, cmd: Command)
    requires Consistent(db) && FreshIds(db, cmd) && !cmd.SyncRolePermissions? && Verdict(db, cmd).Done?
    ensures var db' := Change(db, cmd);
            && (forall c, d | c in db'.roles && d in db'.roles && db'.roles[c].id == db'.roles[d].id :: c == d)
            && (forall c, d | c in db'.permissions && d in db'.permissions
                              && db'.permissions[c].id == db'.permissions[d].id :: c == d)
  {
  }

  lemma LinksStayValid(db: Db, cmd: Command)
    requires Consistent(db) && FreshIds(db, cmd) && !cmd.SyncRolePermissions? && Verdict(db, cmd).Done?
    ensures var db' := Change(db, cmd);
            && (forall l | l in db'.userRoles :: IsRoleId(db', l.1) && l.0 in db'.users)
            && (forall l | l in db'.userPermissions :: IsPermissionId(db', l.1) && l.0 in db'.users)
            && (forall l | l in db'.rolePermissions :: IsRoleId(db', l.0) && IsPermissionId(db', l.1))
  {
    RolesStay(db, cmd);
    PermissionsStay(db, cmd);
  }

  /** A role id that no deletion removed still belongs to a role. */
  lemma RolesStay(db: Db, cmd: Command)
    requires Consistent(db) && FreshIds(db, cmd) && !cmd.SyncRolePermissions? && Verdict(db, cmd).Done?
    ensures var db' := Change(db, cmd);
            forall c | c in db.roles && !(cmd.DeleteRole? && cmd.code == c) :: IsRoleId(db', db.roles[c].id)
  {
    var db' := Change(db, cmd);
    forall c | c in db.roles && !(cmd.DeleteRole? && cmd.code == c) ensures IsRoleId(db', db.roles[c].id) {
      assert c in db'.roles && db'.roles[c].id == db.roles[c].id;
    }
  }

  lemma PermissionsStay(db: Db, cmd: Command)
    requires Consistent(db) && FreshIds(db, cmd) && !cmd.SyncRolePermissions? && Verdict(db, cmd).Done?
    ensures var db' := Change(db, cmd);
            forall c | c in db.permissions && !(cmd.DeletePermission? && cmd.code == c) ::
                IsPermissionId(db', db.permissions[c].id)
  {
    var db' := Change(db, cmd);
    forall c | c in db.permissions && !(cmd.DeletePermission? && cmd.code == c)
        ensures IsPermissionId(db', db.permissions[c].id) {
      assert c in db'.permissions && db'.permissions[c].id == db.permissions[c].id;
    }
  }

  lemma SyncKeepsConsistent(db: Db, role: string, codes: set<string>, ids: map<string, Id>)
    requires Consistent(db) && role in db.roles && codes <= ids.Keys
    requires forall c | c in ids :: !IsPermissionId(db, ids[c])
    requires forall c, d | c in ids && d in ids && ids[c] == ids[d] :: c == d
    ensures Consistent(Synced(db, role, codes, ids))
  {
    var db' := Synced(db, role, codes, ids);
    assert forall c | c in db.roles :: c in db'.roles && db'.roles[c] == db.roles[c];
    assert forall c | c in db.permissions :: c in db'.permissions && db'.permissions[c] == db.permissions[c];
    forall l | l in db'.rolePermissions ensures IsRoleId(db', l.0) && IsPermissionId(db', l.1) {
      if l in db.rolePermissions {
        assert IsRoleId(db, l.0) && IsPermissionId(db, l.1);
      } else {
        var c :| c in codes && l == (db.roles[role].id, db'.permissions[c].id);
        assert c in db'.permissions;
      }
    }
  }
}
