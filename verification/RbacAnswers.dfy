/** When each RBAC command goes through and what it then writes, read off the tables alone. */
module RbacAnswers {
  import opened Common
  import opened Text
  import opened RbacTables

  /** Every refusal leaves the tables as they were. */
  lemma RefusalChangesNothing(db: Db, cmd: Command)
    requires FreshIds(db, cmd)
    ensures Execute(db, cmd).1.Rejected? ==> Execute(db, cmd).0 == db
  {
  }

  /**
   A role is assigned if and only if both names are non-blank, the role exists, super_admin is
   handed out by nobody in particular or by another holder of it, and the user exists, or the
   dialect skips such a link.
   */
  lemma AssignRoleIff(db: Db, caller: Option<UserId>, rawUser: UserId, rawRole: string)
    ensures var (db', answer) := Execute(db, AssignRole(caller, rawUser, rawRole));
            var user, role := TrimSpace(rawUser), TrimSpace(rawRole);
            var holders := Holders(db, "super_admin");
            var authorised :=
              role == "super_admin" && caller.Some? ==> caller.value != user && caller.value in holders;
            && (answer == Done(true) <==>
                  user != "" && role != "" && role in db.roles && authorised && (user in db.users || db.dialect.MySQL?))
            && (answer == Rejected(Invalid) <==> user == "" || role == "")
            && (answer == Rejected(NotFound) <==> user != "" && role != "" && role !in db.roles)
            && (answer == Rejected(Protected) <==> user != "" && role != "" && role in db.roles && !authorised)
            && (answer != Done(true) ==> answer.Rejected?)
            && (answer == Done(true) ==>
                  var link := (user, db.roles[role].id);
                  db' == db.(userRoles := if user in db.users then db.userRoles + {link} else db.userRoles))
  {
    if caller.Some? { HolderIsMember(db, "super_admin", caller.value); }
  }

  /** A role is taken away if and only if it exists, and is not super_admin of its last holder. */
  lemma RevokeRoleIff(db: Db, rawUser: UserId, rawRole: string)
    ensures var (db', answer) := Execute(db, RevokeRole(rawUser, rawRole));
            var user, role := TrimSpace(rawUser), TrimSpace(rawRole);
            var last := role == "super_admin" && user in Holders(db, role) && |Holders(db, role)| < 2;
            && (answer == Done(true) <==> user != "" && role != "" && role in db.roles && !last)
            && (answer == Rejected(Invalid) <==> user == "" || role == "")
            && (answer == Rejected(NotFound) <==> user != "" && role != "" && role !in db.roles)
            && (answer == Rejected(Protected) <==> user != "" && role != "" && last)
            && (answer == Done(true) ==> db' == db.(userRoles := db.userRoles - {(user, db.roles[role].id)}))
  {
    HolderIsMember(db, TrimSpace(rawRole), TrimSpace(rawUser));
  }

  /** A permission is granted directly if and only if it and the user exist, by dialect. */
  lemma GrantPermissionIff(db: Db, rawUser: UserId, rawCode: string)
    ensures var (db', answer) := Execute(db, GrantPermission(rawUser, rawCode));
            var user, code := TrimSpace(rawUser), TrimSpace(rawCode);
            && (answer == Done(true) <==>
                  user != "" && code != "" && code in db.permissions && (user in db.users || db.dialect.MySQL?))
            && (answer == Rejected(Invalid) <==> user == "" || code == "")
            && (answer == Rejected(NotFound) <==> user != "" && code != "" && code !in db.permissions)
            && (answer == Done(true) ==>
                  var link := (user, db.permissions[code].id);
                  db' == db.(userPermissions := if user in db.users then db.userPermissions + {link}
                                                else db.userPermissions))
  {
  }

  lemma RevokePermissionIff(db: Db, rawUser: UserId, rawCode: string)
    ensures var (db', answer) := Execute(db, RevokePermission(rawUser, rawCode));
            var user, code := TrimSpace(rawUser), TrimSpace(rawCode);
            && (answer == Done(true) <==> user != "" && code != "" && code in db.permissions)
            && (answer == Rejected(Invalid) <==> user == "" || code == "")
            && (answer == Rejected(NotFound) <==> user != "" && code != "" && code !in db.permissions)
            && (answer == Done(true) ==>
                  db' == db.(userPermissions := db.userPermissions - {(user, db.permissions[code].id)}))
  {
  }

  /** Creation goes through exactly for a new code with a name, and never reaches the bump. */
  lemma CreateIff(db: Db, id: Id, rawCode: string, rawGroup: string, rawName: string)
    requires !IsRoleId(db, id) && !IsPermissionId(db, id)
    ensures var (db', answer) := Execute(db, CreateRole(id, rawCode, rawName));
            var code, name := TrimSpace(rawCode), TrimSpace(rawName);
            && (answer == Done(false) <==> code != "" && name != "" && code !in db.roles)
            && (answer == Rejected(Invalid) <==> code == "" || name == "")
            && (answer == Rejected(Conflict) <==> code != "" && name != "" && code in db.roles)
            && (answer == Done(false) ==> db' == db.(roles := db.roles[code := Role(id, name)]))
    ensures var (db', answer) := Execute(db, CreatePermission(id, rawCode, rawGroup, rawName));
            var code, group, name := TrimSpace(rawCode), TrimSpace(rawGroup), TrimSpace(rawName);
            && (answer == Done(false) <==> code != "" && name != "" && code !in db.permissions)
            && (answer == Rejected(Invalid) <==> code == "" || name == "")
            && (answer == Rejected(Conflict) <==> code != "" && name != "" && code in db.permissions)
            && (answer == Done(false) ==>
                  var row := Permission(id, if group == "" then "General" else group, name);
                  db' == db.(permissions := db.permissions[code := row]))
  {
  }

  /** Renaming bumps exactly when it changes something, and never touches the two built-in roles. */
  lemma UpdateRoleIff(db: Db, rawCode: string, rawName: string)
    ensures var (db', answer) := Execute(db, UpdateRole(rawCode, rawName));
            var code, name := TrimSpace(rawCode), TrimSpace(rawName);
            var builtin := code == "super_admin" || code == "user";
            && (answer.Done? <==> code != "" && name != "" && !builtin && code in db.roles)
            && (answer == Rejected(Protected) <==> name != "" && builtin)
            && (answer == Rejected(NotFound) <==> code != "" && name != "" && !builtin && code !in db.roles)
            && (answer.Done? ==>
                  && answer.bumped == (db.roles[code].name != name)
                  && db' == db.(roles := db.roles[code := Role(db.roles[code].id, name)]))
  {
    if TrimSpace(rawCode) in db.roles && db.roles[TrimSpace(rawCode)].name == TrimSpace(rawName) {
      assert db.roles == db.roles[TrimSpace(rawCode) := db.roles[TrimSpace(rawCode)]];
    }
  }

  lemma UpdatePermissionIff(db: Db, rawCode: string, rawGroup: string, rawName: string)
    ensures var (db', answer) := Execute(db, UpdatePermission(rawCode, rawGroup, rawName));
            var code, group, name := TrimSpace(rawCode), TrimSpace(rawGroup), TrimSpace(rawName);
            && (answer.Done? <==> code != "" && name != "" && code != "rbac.manage" && code in db.permissions)
            && (answer == Rejected(Protected) <==> name != "" && code == "rbac.manage")
            && (answer.Done? ==>
                  var was := db.permissions[code];
                  var row := Permission(was.id, if group == "" then was.group else group, name);
                  answer.bumped == (row != was) && db' == db.(permissions := db.permissions[code := row]))
  {
    var code := TrimSpace(rawCode);
    if code in db.permissions { assert db.permissions == db.permissions[code := db.permissions[code]]; }
  }

  /** A role goes with its links, unless it is one of the two built-in ones. */
  lemma DeleteRoleIff(db: Db, rawCode: string)
    ensures var (db', answer) := Execute(db, DeleteRole(rawCode));
            var code := TrimSpace(rawCode);
            var builtin := code == "super_admin" || code == "user";
            && (answer == Done(true) <==> code != "" && !builtin && code in db.roles)
            && (answer == Rejected(Protected) <==> builtin)
            && (answer == Rejected(NotFound) <==> code != "" && !builtin && code !in db.roles)
            && (answer == Done(true) ==>
                  && db'.roles == db.roles - {code} && db'.permissions == db.permissions
                  && db'.userPermissions == db.userPermissions
                  && (forall l :: l in db'.userRoles <==> l in db.userRoles && l.1 != db.roles[code].id)
                  && (forall l :: l in db'.rolePermissions <==> l in db.rolePermissions && l.0 != db.roles[code].id))
  {
  }

  lemma DeletePermissionIff(db: Db, rawCode: string)
    ensures var (db', answer) := Execute(db, DeletePermission(rawCode));
            var code := TrimSpace(rawCode);
            && (answer == Done(true) <==> code != "" && code != "rbac.manage" && code in db.permissions)
            && (answer == Rejected(Protected) <==> code == "rbac.manage")
            && (answer == Rejected(NotFound) <==> code != "" && code != "rbac.manage" && code !in db.permissions)
            && (answer == Done(true) ==>
                  && db'.permissions == db.permissions - {code}
                  && db'.roles == db.roles && db'.userRoles == db.userRoles
                  && (forall l :: l in db'.userPermissions <==>
                        l in db.userPermissions && l.1 != db.permissions[code].id)
                  && (forall l :: l in db'.rolePermissions <==>
                        l in db.rolePermissions && l.1 != db.permissions[code].id))
  {
  }

  /** The group of a new permission is the part of its code before the first dot, if there is any. */
  lemma GroupIs(head: string, rest: string)
    requires '.' !in head
    ensures head != "" ==> GroupFor(head + "." + rest) == head
    ensures GroupFor(head) == "General" && GroupFor("." + rest) == "General"
  {
    DotAt(head, rest);
    assert (head + "." + rest)[..|head|] == head;
    assert ("." + rest)[0] == '.';
  }

  lemma {:induction false} DotAt(head: string, rest: string)
    requires '.' !in head
    ensures IndexOf(head + "." + rest, '.') == |head|
  {
    if head != "" {
      assert (head + "." + rest)[1..] == head[1..] + "." + rest;
      DotAt(head[1..], rest);
    } else {
      assert head + "." + rest == "." + rest;
    }
  }

  /**
   A sync goes through exactly for a role that exists, whatever codes it names. The codes that
   are new get a row each, and no row changes.
   */
  lemma SyncIff(db: Db, rawRole: string, codes: seq<string>, ids: map<string, Id>)
    requires FreshIds(db, SyncRolePermissions(rawRole, codes, ids))
    ensures var (db', answer) := Execute(db, SyncRolePermissions(rawRole, codes, ids));
            var role := TrimSpace(rawRole);
            && (answer == Done(true) <==> role in db.roles)
            && (answer == Rejected(NotFound) <==> role !in db.roles)
            && (answer == Done(true) ==>
                  && db'.roles == db.roles
                  && db'.userRoles == db.userRoles && db'.userPermissions == db.userPermissions
                  && (forall c | c in db.permissions :: c in db'.permissions && db'.permissions[c] == db.permissions[c])
                  && (forall c :: c in db'.permissions && c !in db.permissions <==>
                        c !in db.permissions && exists raw :: raw in codes && TrimSpace(raw) == c && c != "")
                  && (forall c | c in db'.permissions && c !in db.permissions ::
                        c in ids && db'.permissions[c] == Permission(ids[c], GroupFor(c), c))
                  && (forall l: (Id, Id) | l.0 != db.roles[role].id ::
                        l in db'.rolePermissions <==> l in db.rolePermissions))
  {
  }
}
