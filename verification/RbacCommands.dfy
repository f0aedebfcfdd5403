/** What whole runs of RBAC commands preserve, and the commands that loop. */
module RbacInvariants {
  import opened Text
  import opened RbacTables

  /** Every command of a run brings new identifiers. */
  predicate Valid(db: Db, run: seq<Command>)
    decreases |run|
  {
    run == [] || (FreshIds(db, run[0]) && Valid(Execute(db, run[0]).0, run[1..]))
  }

  function Exec(db: Db, run: seq<Command>): Db
    requires Valid(db, run)
    decreases |run|
  {
    if run == [] then db else Exec(Execute(db, run[0]).0, run[1..])
  }

  predicate SuperAdminAssign(cmd: Command) { cmd.AssignRole? && TrimSpace(cmd.role) == SUPER_ADMIN }

  predicate SuperAdminRevoke(cmd: Command) { cmd.RevokeRole? && TrimSpace(cmd.role) == SUPER_ADMIN }

  /** Roles change hands by assignment, revocation and deletion only, and just the role named. */
  lemma RolesAfter(db: Db, cmd: Command, u: UserId)
    requires Consistent(db) && FreshIds(db, cmd)
    ensures var (db', result) := Execute(db, cmd);
            var c := Trimmed(cmd);
            RoleCodes(db', u) ==
              if result.Rejected? then RoleCodes(db, u)
              else if c.AssignRole? && c.user == u && u in db.users then RoleCodes(db, u) + {c.role}
              else if c.RevokeRole? && c.user == u then RoleCodes(db, u) - {c.role}
              else if c.DeleteRole? then RoleCodes(db, u) - {c.code}
              else RoleCodes(db, u)
  {
    var c := Trimmed(cmd);
    if Verdict(db, c).Done? {
      if c.AssignRole? || c.RevokeRole? {
        RoleLinkChange(db, c, u);
      } else {
        RoleTableChange(db, c, u);
      }
    }
  }

  lemma RoleLinkChange(db: Db, c: Command, u: UserId)
    requires Consistent(db) && FreshIds(db, c) && Verdict(db, c).Done? && (c.AssignRole? || c.RevokeRole?)
    ensures RoleCodes(Change(db, c), u) ==
              if c.user != u then RoleCodes(db, u)
              else if c.RevokeRole? then RoleCodes(db, u) - {c.role}
              else if u in db.users then RoleCodes(db, u) + {c.role}
              else RoleCodes(db, u)
  {
  }

  lemma RoleTableChange(db: Db, c: Command, u: UserId)
    requires Consistent(db) && FreshIds(db, c) && Verdict(db, c).Done? && !c.AssignRole? && !c.RevokeRole?
    ensures RoleCodes(Change(db, c), u) == if c.DeleteRole? then RoleCodes(db, u) - {c.code} else RoleCodes(db, u)
  {
  }

  lemma HolderLinkChange(db: Db, c: Command)
    requires Consistent(db) && FreshIds(db, c) && Verdict(db, c).Done? && (c.AssignRole? || c.RevokeRole?)
    ensures Holders(Change(db, c), SUPER_ADMIN) ==
              if c.role != SUPER_ADMIN then Holders(db, SUPER_ADMIN)
              else if c.AssignRole? then Holders(db, SUPER_ADMIN) + ({c.user} * db.users)
              else Holders(db, SUPER_ADMIN) - {c.user}
  {
  }

  lemma HolderTableChange(db: Db, c: Command)
    requires Consistent(db) && FreshIds(db, c) && Verdict(db, c).Done? && !c.AssignRole? && !c.RevokeRole?
    ensures Holders(Change(db, c), SUPER_ADMIN) == Holders(db, SUPER_ADMIN)
  {
  }

  /** The exact effect of any command on who holds super_admin. */
  lemma HoldersAfter(db: Db, cmd: Command)
    requires Consistent(db) && FreshIds(db, cmd)
    ensures var (db', result) := Execute(db, cmd);
            Holders(db', SUPER_ADMIN) ==
              if result.Rejected? then Holders(db, SUPER_ADMIN)
              else if SuperAdminAssign(cmd) then Holders(db, SUPER_ADMIN) + ({TrimSpace(cmd.user)} * db.users)
              else if SuperAdminRevoke(cmd) then Holders(db, SUPER_ADMIN) - {TrimSpace(cmd.user)}
              else Holders(db, SUPER_ADMIN)
  {
    var c := Trimmed(cmd);
    if Verdict(db, c).Done? {
      if c.AssignRole? || c.RevokeRole? {
        HolderLinkChange(db, c);
      } else {
        HolderTableChange(db, c);
      }
    }
  }

  lemma StepKeepsAHolder(db: Db, cmd: Command)
    requires Consistent(db) && FreshIds(db, cmd)
    requires Holders(db, SUPER_ADMIN) != {}
    ensures Holders(Execute(db, cmd).0, SUPER_ADMIN) != {}
  {
    HoldersAfter(db, cmd);
    if SuperAdminRevoke(cmd) && Execute(db, cmd).1.Done? {
      var holders, user := Holders(db, SUPER_ADMIN), TrimSpace(cmd.user);
      HolderIsMember(db, SUPER_ADMIN, user);
      if user in holders {
        assert |holders - {user}| == |holders| - 1;
      }
    }
  }

  /** No run of commands takes super_admin from its last holder. */
  lemma {:induction false} AHolderRemains(db: Db, run: seq<Command>)
    requires Consistent(db) && Valid(db, run)
    requires Holders(db, SUPER_ADMIN) != {}
    ensures Consistent(Exec(db, run)) && Holders(Exec(db, run), SUPER_ADMIN) != {}
    decreases |run|
  {
    if run != [] {
      StepKeepsAHolder(db, run[0]);
      ExecuteKeepsConsistent(db, run[0]);
      AHolderRemains(Execute(db, run[0]).0, run[1..]);
    }
  }

  /** run[i] makes u a super admin on the word of a different user who is one then. */
  predicate AppointedAt(db: Db, run: seq<Command>, i: nat, u: UserId)
    requires Valid(db, run)
    decreases |run|
  {
    && i < |run|
    && if i > 0 then AppointedAt(Execute(db, run[0]).0, run[1..], i - 1, u)
       else
         && SuperAdminAssign(run[0]) && TrimSpace(run[0].user) == u
         && run[0].caller.Some? && run[0].caller.value != u
         && run[0].caller.value in Holders(db, SUPER_ADMIN)
  }

  /**
   When every AssignRole carries an identity, whoever holds super_admin after a run
   held it before or was appointed during it by somebody else who held it then.
   */
  lemma {:induction false} HoldersAreAppointed(db: Db, run: seq<Command>, u: UserId) returns (i: nat)
    requires Consistent(db) && Valid(db, run)
    requires forall cmd | cmd in run && cmd.AssignRole? :: cmd.caller.Some?
    requires u in Holders(Exec(db, run), SUPER_ADMIN)
    ensures u in Holders(db, SUPER_ADMIN) || AppointedAt(db, run, i, u)
    decreases |run|
  {
    i := 0;
    if run != [] {
      var cmd := run[0];
      var db' := Execute(db, cmd).0;
      ExecuteKeepsConsistent(db, cmd);
      var j := HoldersAreAppointed(db', run[1..], u);
      if u in Holders(db', SUPER_ADMIN) {
        HoldersAfter(db, cmd);
        if u !in Holders(db, SUPER_ADMIN) {
          HolderIsMember(db, SUPER_ADMIN, cmd.caller.value);
        }
      } else {
        i := j + 1;
      }
    }
  }

  /** Without a holder to start from, identified callers can never create one. */
  lemma {:induction false} NobodySelfAppoints(db: Db, run: seq<Command>)
    requires Consistent(db) && Valid(db, run)
    requires forall cmd | cmd in run && cmd.AssignRole? :: cmd.caller.Some?
    requires Holders(db, SUPER_ADMIN) == {}
    ensures Holders(Exec(db, run), SUPER_ADMIN) == {}
    decreases |run|
  {
    if run != [] {
      var cmd := run[0];
      HoldersAfter(db, cmd);
      if cmd.AssignRole? { HolderIsMember(db, SUPER_ADMIN, cmd.caller.value); }
      ExecuteKeepsConsistent(db, cmd);
      NobodySelfAppoints(Execute(db, cmd).0, run[1..]);
    }
  }

  /** A command that does not reach its bump changes nobody's roles or permissions. */
  lemma NoBumpNoChange(db: Db, cmd: Command, u: UserId)
    requires Consistent(db) && FreshIds(db, cmd)
    requires Execute(db, cmd).1 != Done(true)
    ensures SameView(db, Execute(db, cmd).0, u)
  {
  }

  // ---------------------------------------------------------------------------
  // What each command does to what users hold
  // ---------------------------------------------------------------------------

  /** The permission codes a role carries. */
  function Carries(db: Db, role: string): set<string> {
    set c | c in db.permissions && role in db.roles && (db.roles[role].id, db.permissions[c].id) in db.rolePermissions
  }

  /** The query over both link tables gives exactly what the user's roles carry. */
  lemma InheritedThroughRoles(db: Db, u: UserId)
    requires Consistent(db)
    ensures InheritedCodes(db, u) == set r, c | r in RoleCodes(db, u) && c in Carries(db, r) :: c
  {
    forall c | c in InheritedCodes(db, u) ensures exists r :: r in RoleCodes(db, u) && c in Carries(db, r) {
      var l :| l in db.rolePermissions && l.1 == db.permissions[c].id && (u, l.0) in db.userRoles;
      assert IsRoleId(db, l.0);
      var r :| r in db.roles && db.roles[r].id == l.0;
      assert (db.roles[r].id, db.permissions[c].id) == l;
      assert r in RoleCodes(db, u) && c in Carries(db, r);
    }
    forall r, c | r in RoleCodes(db, u) && c in Carries(db, r) ensures c in InheritedCodes(db, u) {
      assert (db.roles[r].id, db.permissions[c].id) in db.rolePermissions;
      assert Inherits(db, u, c);
    }
  }

  lemma DirectAfter(db: Db, cmd: Command, u: UserId)
    requires Consistent(db) && FreshIds(db, cmd)
    ensures var (db', result) := Execute(db, cmd);
            var c := Trimmed(cmd);
            DirectCodes(db', u) ==
              if result.Rejected? then DirectCodes(db, u)
              else if c.GrantPermission? && c.user == u && u in db.users then DirectCodes(db, u) + {c.permission}
              else if c.RevokePermission? && c.user == u then DirectCodes(db, u) - {c.permission}
              else if c.DeletePermission? then DirectCodes(db, u) - {c.code}
              else DirectCodes(db, u)
  {
    var c := Trimmed(cmd);
    if Verdict(db, c).Done? {
      if c.GrantPermission? || c.RevokePermission? {
        DirectLinkChange(db, c, u);
      } else {
        DirectTableChange(db, c, u);
      }
    }
  }

  lemma DirectLinkChange(db: Db, c: Command, u: UserId)
    requires Consistent(db) && FreshIds(db, c) && Verdict(db, c).Done?
    requires c.GrantPermission? || c.RevokePermission?
    ensures DirectCodes(Change(db, c), u) ==
              if c.user != u then DirectCodes(db, u)
              else if c.RevokePermission? then DirectCodes(db, u) - {c.permission}
              else if u in db.users then DirectCodes(db, u) + {c.permission}
              else DirectCodes(db, u)
  {
  }

  lemma DirectTableChange(db: Db, c: Command, u: UserId)
    requires Consistent(db) && FreshIds(db, c) && Verdict(db, c).Done?
    requires !c.GrantPermission? && !c.RevokePermission?
    ensures DirectCodes(Change(db, c), u) ==
              if c.DeletePermission? then DirectCodes(db, u) - {c.code} else DirectCodes(db, u)
  {
  }

  /** What a role carries changes by a sync of that role, and by deletions. */
  lemma CarriesAfter(db: Db, cmd: Command, role: string)
    requires Consistent(db) && FreshIds(db, cmd)
    ensures var (db', result) := Execute(db, cmd);
            var c := Trimmed(cmd);
            Carries(db', role) ==
              if result.Rejected? then Carries(db, role)
              else if c.SyncRolePermissions? && c.role == role then Cleaned(c.codes)
              else if c.DeleteRole? && c.code == role then {}
              else if c.DeletePermission? then Carries(db, role) - {c.code}
              else Carries(db, role)
  {
    var c := Trimmed(cmd);
    if Verdict(db, c).Done? {
      if c.SyncRolePermissions? {
        SyncCarries(db, c.role, Cleaned(c.codes), c.ids, role);
      } else {
        ChangeCarries(db, c, role);
      }
    }
  }

  lemma ChangeCarries(db: Db, c: Command, role: string)
    requires Consistent(db) && FreshIds(db, c) && Verdict(db, c).Done? && !c.SyncRolePermissions?
    ensures Carries(Change(db, c), role) ==
              if c.DeleteRole? && c.code == role then {}
              else if c.DeletePermission? then Carries(db, role) - {c.code}
              else Carries(db, role)
  {
  }

  lemma SyncCarries(db: Db, synced: string, codes: set<string>, ids: map<string, Id>, role: string)
    requires Consistent(db) && synced in db.roles && codes <= ids.Keys
    requires forall c | c in ids :: !IsPermissionId(db, ids[c])
    requires forall c, d | c in ids && d in ids && ids[c] == ids[d] :: c == d
    ensures Carries(Synced(db, synced, codes, ids), role) == if role == synced then codes else Carries(db, role)
  {
  }
}
