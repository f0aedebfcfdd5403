/** The imperative side of RBAC: link tables changed in place, commands that loop. */
module RbacStore {
  import opened Common
  import opened Sequences
  import opened Text
  import opened RbacTables

  class Store {
    var roles: map<string, Role>
    var permissions: map<string, Permission>
    var userRoles: set<(UserId, Id)>
    var userPermissions: set<(UserId, Id)>
    var rolePermissions: set<(Id, Id)>
    var users: set<UserId>
    const dialect: Dialect

    function Tables(): Db
      reads this
    {
      Db(roles, permissions, userRoles, userPermissions, rolePermissions, users, dialect)
    }

    constructor (dialect: Dialect)
      ensures Tables() == Db(map[], map[], {}, {}, {}, {}, dialect)
    {
      this.dialect := dialect;
      users := {};
      roles, permissions := map[], map[];
      userRoles, userPermissions, rolePermissions := {}, {}, {};
    }

    method RolesOf(u: UserId) returns (codes: seq<string>)
      ensures Distinct(codes) && Elements(codes) == RoleCodes(Tables(), u)
    {
      codes := Listing(RoleCodes(Tables(), u));
    }

    method AuthorizeSuperAdminGrant(caller: Option<UserId>, target: UserId) returns (allowed: bool)
      ensures allowed <==>
                caller.None? || (caller.value != target && caller.value in Holders(Tables(), "super_admin"))
      ensures allowed <==> MayGrant(Tables(), caller, target)
    {
      if caller.None? {
        return true;
      }
      if caller.value == target {
        return false;
      }
      HolderIsMember(Tables(), SUPER_ADMIN, caller.value);
      var held := RolesOf(caller.value);
      for i := 0 to |held|
        invariant SUPER_ADMIN !in held[..i]
      {
        if held[i] == SUPER_ADMIN {
          return true;
        }
      }
      assert SUPER_ADMIN !in Elements(held);
      return false;
    }

    method AssignRole(caller: Option<UserId>, rawUser: UserId, rawRole: string) returns (result: Result)
      modifies this`userRoles
      ensures (Tables(), result) == Execute(old(Tables()), Command.AssignRole(caller, rawUser, rawRole))
    {
      var user, code := TrimSpace(rawUser), TrimSpace(rawRole);
      if user == "" || code == "" {
        return Rejected(Invalid);
      }
      if code !in roles {
        return Rejected(NotFound);
      }
      if code == SUPER_ADMIN {
        var allowed := AuthorizeSuperAdminGrant(caller, user);
        if !allowed {
          return Rejected(Protected);
        }
      }
      var linked := InsertUserRole(user, roles[code].id);
      return if linked then Done(true) else Rejected(ForeignKey);
    }

    /** The idempotent insert; without the user it fails or does nothing, by dialect. */
    method InsertUserRole(user: UserId, role: Id) returns (ok: bool)
      modifies this`userRoles
      ensures user in users ==> ok && userRoles == old(userRoles) + {(user, role)}
      ensures user !in users ==> ok == dialect.MySQL? && userRoles == old(userRoles)
    {
      if user !in users {
        return dialect.MySQL?;
      }
      userRoles := userRoles + {(user, role)};
      return true;
    }

    method EnsureSuperAdminRemains(target: UserId, code: string) returns (allowed: bool)
      ensures allowed <==> target !in Holders(Tables(), code) || |Holders(Tables(), code)| > 1
      ensures allowed <==> MayRevoke(Tables(), target, code)
    {
      HolderIsMember(Tables(), code, target);
      var held := RolesOf(target);
      var holds := false;
      var i := 0;
      while i < |held|
        invariant 0 <= i <= |held| && !holds && code !in held[..i]
      {
        if held[i] == code {
          holds := true;
          break;
        }
        i := i + 1;
      }
      assert holds <==> code in Elements(held);
      if !holds {
        return true;
      }
      return |Holders(Tables(), code)| > 1;
    }

    method RevokeRole(rawUser: UserId, rawRole: string) returns (result: Result)
      modifies this`userRoles
      ensures (Tables(), result) == Execute(old(Tables()), Command.RevokeRole(rawUser, rawRole))
    {
      var user, code := TrimSpace(rawUser), TrimSpace(rawRole);
      if user == "" || code == "" {
        return Rejected(Invalid);
      }
      if code !in roles {
        return Rejected(NotFound);
      }
      if code == SUPER_ADMIN {
        var allowed := EnsureSuperAdminRemains(user, code);
        if !allowed {
          return Rejected(Protected);
        }
      }
      userRoles := userRoles - {(user, roles[code].id)};
      return Done(true);
    }

    /**
     One transaction: drop the role's links, insert the given ones. A repeated id
     violates the primary key and rolls everything back.
     */
    method SetPermissions(role: Id, ids: seq<Id>) returns (committed: bool)
      modifies this`rolePermissions
      ensures committed <==> Distinct(ids)
      ensures committed ==>
                rolePermissions == (set l | l in old(rolePermissions) && l.0 != role) + (set p | p in ids :: (role, p))
      ensures !committed ==> rolePermissions == old(rolePermissions)
    {
      var links := set l | l in rolePermissions && l.0 != role;
      for i := 0 to |ids|
        invariant Distinct(ids[..i])
        invariant links == (set l | l in old(rolePermissions) && l.0 != role) + (set p | p in ids[..i] :: (role, p))
      {
        assert ids[..i + 1] == ids[..i] + [ids[i]];
        if (role, ids[i]) in links {
          assert ids[i] in ids[..i];
          return false;
        }
        links := links + {(role, ids[i])};
      }
      assert ids[..|ids|] == ids;
      rolePermissions := links;
      return true;
    }

    method EnsurePermission(code: string, newId: Id) returns (id: Id)
      modifies this`permissions
      ensures permissions == if code in old(permissions) then old(permissions)
                             else old(permissions)[code := Permission(newId, GroupFor(code), code)]
      ensures id == permissions[code].id
    {
      if code !in permissions {
        permissions := permissions[code := Permission(newId, GroupFor(code), code)];
      }
      return permissions[code].id;
    }

    /** The loop over the request: one id per distinct non-blank code, rows created as needed. */
    method CollectIds(codes: seq<string>, newIds: map<string, Id>) returns (ids: seq<Id>, ghost order: seq<string>)
      requires Cleaned(codes) <= newIds.Keys
      modifies this`permissions
      ensures permissions == WithPermissions(old(Tables()), Cleaned(codes), newIds)
      ensures Distinct(order) && Elements(order) == Cleaned(codes)
      ensures IdsOf(permissions, order, ids)
    {
      ghost var before := Tables();
      ids, order := [], [];
      var seen: set<string> := {};
      for i := 0 to |codes|
        invariant seen == Cleaned(codes[..i]) && seen <= newIds.Keys
        invariant permissions == WithPermissions(before, seen, newIds)
        invariant Distinct(order) && Elements(order) == seen
        invariant IdsOf(permissions, order, ids)
      {
        CleanedSnoc(codes, i);
        var name := TrimSpace(codes[i]);
        if name != "" && name !in seen {
          OneMoreCode(before, seen, order, ids, name, newIds);
          var id := EnsurePermission(name, newIds[name]);
          ids, order, seen := ids + [id], order + [name], seen + {name};
        }
      }
      assert codes[..|codes|] == codes;
    }

    /**
     Replaces a role's permissions by the request's distinct non-blank codes,
     creating the missing ones. The links never clash, so the transaction commits.
     */
    method SyncRolePermissions(rawRole: string, codes: seq<string>, newIds: map<string, Id>) returns (result: Result)
      requires Consistent(Tables())
      requires FreshIds(Tables(), Command.SyncRolePermissions(rawRole, codes, newIds))
      modifies this`permissions, this`rolePermissions
      ensures (Tables(), result) == Execute(old(Tables()), Command.SyncRolePermissions(rawRole, codes, newIds))
    {
      ghost var before := Tables();
      var code := TrimSpace(rawRole);
      if code !in roles {
        return Rejected(NotFound);
      }
      ghost var order;
      var ids;
      ids, order := CollectIds(codes, newIds);
      SyncIdsDistinct(before, Cleaned(codes), newIds, order, ids);
      IdLinks(permissions, order, ids, roles[code].id);
      var committed := SetPermissions(roles[code].id, ids);
      assert rolePermissions == Synced(before, code, Cleaned(codes), newIds).rolePermissions;
      assert Tables() == Synced(before, code, Cleaned(codes), newIds);
      return Done(true);
    }
  }

  lemma WithOneMore(db: Db, codes: set<string>, code: string, newIds: map<string, Id>)
    requires codes + {code} <= newIds.Keys
    ensures var permissions := WithPermissions(db, codes, newIds);
            WithPermissions(db, codes + {code}, newIds) ==
              if code in permissions then permissions
              else permissions[code := Permission(newIds[code], GroupFor(code), code)]
  {
  }

  /** ids lists the row ids of the codes in order. */
  predicate IdsOf(permissions: map<string, Permission>, order: seq<string>, ids: seq<Id>) {
    && |ids| == |order|
    && forall k | 0 <= k < |ids| :: order[k] in permissions && ids[k] == permissions[order[k]].id
  }

  lemma IdsOfSnoc(known: map<string, Permission>, more: map<string, Permission>, order: seq<string>, ids: seq<Id>,
      code: string)
    requires IdsOf(known, order, ids) && code in more
    requires forall c | c in known :: c in more && more[c] == known[c]
    ensures IdsOf(more, order + [code], ids + [more[code].id])
  {
  }

  /** The loop's state after one more code. */
  lemma OneMoreCode(db: Db, seen: set<string>, order: seq<string>, ids: seq<Id>, name: string, newIds: map<string, Id>)
    requires seen + {name} <= newIds.Keys && name !in seen
    requires Distinct(order) && Elements(order) == seen
    requires IdsOf(WithPermissions(db, seen, newIds), order, ids)
    ensures var known := WithPermissions(db, seen, newIds);
            var more := if name in known then known else known[name := Permission(newIds[name], GroupFor(name), name)];
            && more == WithPermissions(db, seen + {name}, newIds)
            && IdsOf(more, order + [name], ids + [more[name].id])
    ensures Distinct(order + [name]) && Elements(order + [name]) == seen + {name}
  {
    WithOneMore(db, seen, name, newIds);
    ElementsSnoc(order, name);
    assert name !in Elements(order);
    IdsOfSnoc(WithPermissions(db, seen, newIds), WithPermissions(db, seen + {name}, newIds), order, ids, name);
  }

  lemma CleanedSnoc(codes: seq<string>, i: nat)
    requires i < |codes|
    ensures Cleaned(codes[..i + 1]) == Cleaned(codes[..i]) + if TrimSpace(codes[i]) == "" then {}
        else {TrimSpace(codes[i])}
    ensures TrimSpace(codes[i]) != "" ==> TrimSpace(codes[i]) in Cleaned(codes)
  {
  }

  lemma IdLinks(permissions: map<string, Permission>, order: seq<string>, ids: seq<Id>, role: Id)
    requires IdsOf(permissions, order, ids) && Elements(order) <= permissions.Keys
    ensures (set p | p in ids :: (role, p)) == (set c | c in Elements(order) :: (role, permissions[c].id))
  {
  }

  lemma SyncIdsDistinct(db: Db, codes: set<string>, newIds: map<string, Id>, order: seq<string>, ids: seq<Id>)
    requires Consistent(db) && codes <= newIds.Keys
    requires forall c | c in newIds :: !IsPermissionId(db, newIds[c])
    requires forall c, d | c in newIds && d in newIds && newIds[c] == newIds[d] :: c == d
    requires Distinct(order) && Elements(order) == codes
    requires IdsOf(WithPermissions(db, codes, newIds), order, ids)
    ensures Distinct(ids)
  {
  }
}
