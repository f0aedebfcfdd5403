/**
 The versioned permission cache and the GetUser query in front of the tables
 (internal/modules/rbac/application/cache, .../query/get_user.go).
 */
module RbacCache {
  import opened Common
  import opened Sequences
  import opened RbacTables
  import opened RbacStore

  datatype Entry = Entry(version: int, roles: seq<string>, permissions: seq<string>)

  /** A user's roles and direct-or-inherited permissions, exactly as the tables have them. */
  predicate Exact(db: Db, u: UserId, roles: seq<string>, permissions: seq<string>) {
    && Elements(roles) == RoleCodes(db, u)
    && Elements(permissions) == DirectCodes(db, u) + InheritedCodes(db, u)
  }

  /** Entries of the current version agree with the tables. */
  predicate Coherent(entries: map<UserId, Entry>, version: int, db: Db) {
    forall u | u in entries && entries[u].version == version ::
      Exact(db, u, entries[u].roles, entries[u].permissions)
  }

  /** Concatenation without repetitions, first occurrences kept in order. */
  function Union(a: seq<string>, b: seq<string>): seq<string> { Deduped(a + b) }

  function Deduped(s: seq<string>): (r: seq<string>)
    ensures Distinct(r) && Elements(r) == Elements(s)
  {
    if s == [] then []
    else
      var front, x := s[..|s| - 1], s[|s| - 1];
      ElementsSnoc(front, x);
      assert front + [x] == s;
      var r := Deduped(front);
      if x in r then r else (ElementsSnoc(r, x); r + [x])
  }

  /** The loop behind union: one pass with a set of what has been seen. */
  method Merge(a: seq<string>, b: seq<string>) returns (out: seq<string>)
    ensures out == Union(a, b)
    ensures Distinct(out) && Elements(out) == Elements(a) + Elements(b)
  {
    ElementsConcat(a, b);
    var all := a + b;
    var seen: set<string> := {};
    out := [];
    for i := 0 to |all|
      invariant seen == Elements(out) && out == Deduped(all[..i])
    {
      assert all[..i + 1][..i] == all[..i];
      if all[i] !in seen {
        ElementsSnoc(out, all[i]);
        seen := seen + {all[i]};
        out := out + [all[i]];
      }
    }
    assert all[..|all|] == all;
  }

  class PermissionCache {
    var version: Option<int>
    var entries: map<UserId, Entry>

    constructor ()
      ensures version == None && entries == map[]
    {
      version, entries := None, map[];
    }

    /** 0 when never bumped. */
    function CurrentVersion(): int
      reads this
    {
      if version.None? then 0 else version.value
    }

    method Bump()
      modifies this`version
      ensures CurrentVersion() == old(CurrentVersion()) + 1
    {
      version := Some(CurrentVersion() + 1);
    }

    /** Bumps once, and once more if the first attempt failed. */
    method BumpChecked(firstFails: bool, secondFails: bool)
      modifies this`version
      ensures CurrentVersion() == old(CurrentVersion()) + if firstFails && secondFails then 0 else 1
    {
      if !firstFails {
        Bump();
      } else if !secondFails {
        Bump();
      }
    }

    method GetUser(u: UserId, ver: int) returns (found: Option<Entry>)
      ensures found == if u in entries && entries[u].version == ver then Some(entries[u]) else None
    {
      if u !in entries {
        return None;
      }
      var e := entries[u];
      if e.version != ver {
        return None;
      }
      return Some(e);
    }

    method SetUser(u: UserId, ver: int, roles: seq<string>, permissions: seq<string>)
      modifies this`entries
      ensures entries == old(entries)[u := Entry(ver, roles, permissions)]
    {
      entries := entries[u := Entry(ver, roles, permissions)];
    }

    /**
     GetUser run without interference: over a coherent cache it answers exactly what
     the tables say, hit or miss, and leaves the cache coherent. A failed write only
     leaves the cache as it was.
     */
    method Execute(store: Store, u: UserId, writeFails: bool) returns (roles: seq<string>, permissions: seq<string>)
      modifies this`entries
      ensures Coherent(old(entries), CurrentVersion(), store.Tables()) ==>
                && Exact(store.Tables(), u, roles, permissions)
                && Coherent(entries, CurrentVersion(), store.Tables())
      ensures if u in old(entries) && old(entries)[u].version == CurrentVersion()
              then roles == old(entries)[u].roles && permissions == old(entries)[u].permissions
              else Exact(store.Tables(), u, roles, permissions)
      ensures writeFails ==> entries == old(entries)
      ensures !writeFails ==> entries == old(entries)[u := Entry(CurrentVersion(), roles, permissions)]
    {
      var ver := CurrentVersion();
      var hit := GetUser(u, ver);
      if hit.Some? {
        assert entries[u := entries[u]] == entries;
        return hit.value.roles, hit.value.permissions;
      }
      roles, permissions := Load(store, u);
      if !writeFails {
        SetUser(u, ver, roles, permissions);
      }
    }

    method Load(store: Store, u: UserId) returns (roles: seq<string>, permissions: seq<string>)
      ensures Exact(store.Tables(), u, roles, permissions)
    {
      roles := store.RolesOf(u);
      var direct := Listing(DirectCodes(store.Tables(), u));
      var inherited := Listing(InheritedCodes(store.Tables(), u));
      permissions := Merge(direct, inherited);
    }

    /** super_admin holds every permission; anyone else what is listed. */
    method HasPermission(store: Store, u: UserId, permission: string) returns (allowed: bool)
      modifies this`entries
      ensures Coherent(old(entries), CurrentVersion(), store.Tables()) ==>
                (allowed <==> SUPER_ADMIN in RoleCodes(store.Tables(), u)
                              || permission in DirectCodes(store.Tables(), u) + InheritedCodes(store.Tables(), u))
    {
      var roles, permissions := Execute(store, u, false);
      assert SUPER_ADMIN in roles <==> SUPER_ADMIN in Elements(roles);
      assert permission in permissions <==> permission in Elements(permissions);
      for i := 0 to |roles|
        invariant SUPER_ADMIN !in roles[..i]
      {
        if roles[i] == SUPER_ADMIN {
          return true;
        }
      }
      for i := 0 to |permissions|
        invariant permission !in permissions[..i]
      {
        if permissions[i] == permission {
          return true;
        }
      }
      return false;
    }
  }
}

/**
 Readers and writers of the cache interleaved step by step. hist holds every state
 the tables have been in, oldest first; bumps[v] is the index in hist of the state at
 which version v became current. Both are history, not part of the system.
 */
module RbacProtocol {
  import opened Sequences
  import opened RbacInvariants
  import opened RbacTables
  import opened RbacCache

  type ReaderId = nat

  /** One GetUser call between its steps; ver is the version it read first. */
  datatype Reader =
    | Started(u: UserId, ver: nat)
    | Missed(u: UserId, ver: nat)
    | GotRoles(u: UserId, ver: nat, roles: seq<string>)
    | GotDirect(u: UserId, ver: nat, roles: seq<string>, direct: seq<string>)
    | Loaded(u: UserId, ver: nat, roles: seq<string>, permissions: seq<string>)
    | Answered(u: UserId, ver: nat, roles: seq<string>, permissions: seq<string>)

  datatype State = State(hist: seq<Db>, bumps: seq<nat>, entries: map<UserId, Entry>, readers: map<ReaderId, Reader>)

  datatype Step =
    | Begin(r: ReaderId, u: UserId)
    | Hit(r: ReaderId)
    | Miss(r: ReaderId)
    | ReadRoles(r: ReaderId, rows: seq<string>)
    | ReadDirect(r: ReaderId, rows: seq<string>)
    | ReadInherited(r: ReaderId, rows: seq<string>)
    | SetEntry(r: ReaderId)
    | SetFails(r: ReaderId)
    | Abandon(r: ReaderId)
    | Write(db: Db)
    | Bump
    | Evict(u: UserId)

  predicate WellFormed(s: State) {
    && |s.hist| > 0 && |s.bumps| > 0
    && (forall v | 0 <= v < |s.bumps| :: s.bumps[v] < |s.hist|)
    && (forall v, w | 0 <= v <= w < |s.bumps| :: s.bumps[v] <= s.bumps[w])
  }

  function Version(s: State): nat
    requires WellFormed(s)
  {
    |s.bumps| - 1
  }

  function Now(s: State): Db
    requires WellFormed(s)
  {
    s.hist[|s.hist| - 1]
  }

  predicate Cached(s: State, u: UserId, ver: nat) {
    u in s.entries && s.entries[u].version == ver
  }

  predicate Enabled(s: State, e: Step)
    requires WellFormed(s)
  {
    match e
    case Begin(r, _) => r !in s.readers
    case Hit(r) => r in s.readers && s.readers[r].Started? && Cached(s, s.readers[r].u, s.readers[r].ver)
    case Miss(r) => r in s.readers && s.readers[r].Started? && !Cached(s, s.readers[r].u, s.readers[r].ver)
    case ReadRoles(r, rows) =>
      r in s.readers && s.readers[r].Missed? && Elements(rows) == RoleCodes(Now(s), s.readers[r].u)
    case ReadDirect(r, rows) =>
      r in s.readers && s.readers[r].GotRoles? && Elements(rows) == DirectCodes(Now(s), s.readers[r].u)
    case ReadInherited(r, rows) =>
      r in s.readers && s.readers[r].GotDirect? && Elements(rows) == InheritedCodes(Now(s), s.readers[r].u)
    case SetEntry(r) => r in s.readers && s.readers[r].Loaded?
    case SetFails(r) => r in s.readers && s.readers[r].Loaded?
    case Abandon(r) => r in s.readers && !s.readers[r].Answered?
    case Write(_) => true
    case Bump => true
    case Evict(_) => true
  }

  function Apply(s: State, e: Step): State
    requires WellFormed(s) && Enabled(s, e)
  {
    match e
    case Begin(r, u) => s.(readers := s.readers[r := Started(u, Version(s))])
    case Hit(r) =>
      var rd := s.readers[r];
      var hit := s.entries[rd.u];
      s.(readers := s.readers[r := Answered(rd.u, rd.ver, hit.roles, hit.permissions)])
    case Miss(r) => s.(readers := s.readers[r := Missed(s.readers[r].u, s.readers[r].ver)])
    case ReadRoles(r, rows) => s.(readers := s.readers[r := GotRoles(s.readers[r].u, s.readers[r].ver, rows)])
    case ReadDirect(r, rows) =>
      s.(readers := s.readers[r := GotDirect(s.readers[r].u, s.readers[r].ver, s.readers[r].roles, rows)])
    case ReadInherited(r, rows) =>
      var rd := s.readers[r];
      s.(readers := s.readers[r := Loaded(rd.u, rd.ver, rd.roles, Union(rd.direct, rows))])
    case SetEntry(r) =>
      var rd := s.readers[r];
      s.(entries := s.entries[rd.u := Entry(rd.ver, rd.roles, rd.permissions)],
         readers := s.readers[r := Answered(rd.u, rd.ver, rd.roles, rd.permissions)])
    case SetFails(r) =>
      var rd := s.readers[r];
      s.(readers := s.readers[r := Answered(rd.u, rd.ver, rd.roles, rd.permissions)])
    case Abandon(r) => s.(readers := s.readers - {r})
    case Write(db) => s.(hist := s.hist + [db])
    case Bump => s.(bumps := s.bumps + [|s.hist| - 1])
    case Evict(u) => s.(entries := s.entries - {u})
  }

  predicate Valid(s: State, run: seq<Step>)
    decreases |run|
  {
    WellFormed(s) && (run == [] || (Enabled(s, run[0]) && Valid(Apply(s, run[0]), run[1..])))
  }

  function Exec(s: State, run: seq<Step>): State
    requires Valid(s, run)
    decreases |run|
  {
    if run == [] then s else Exec(Apply(s, run[0]), run[1..])
  }

  function Init(db: Db): State { State([db], [0], map[], map[]) }

  /** Roles as of state i, direct permissions as of j, inherited ones as of k. */
  ghost predicate ViewedAt(s: State, u: UserId, roles: seq<string>, permissions: seq<string>, i: nat, j: nat, k: nat) {
    && i <= j <= k < |s.hist|
    && Elements(roles) == RoleCodes(s.hist[i], u)
    && Elements(permissions) == DirectCodes(s.hist[j], u) + InheritedCodes(s.hist[k], u)
  }

  /** Every component was true of the tables at some moment since state number from. */
  ghost predicate FreshSince(s: State, u: UserId, roles: seq<string>, permissions: seq<string>, from: nat) {
    exists i: nat, j: nat, k: nat :: from <= i && ViewedAt(s, u, roles, permissions, i, j, k)
  }

  ghost predicate RolesSince(s: State, u: UserId, roles: seq<string>, from: nat, i: nat) {
    from <= i < |s.hist| && Elements(roles) == RoleCodes(s.hist[i], u)
  }

  ghost predicate DirectSince(s: State, u: UserId, direct: seq<string>, from: nat, j: nat) {
    from <= j < |s.hist| && Elements(direct) == DirectCodes(s.hist[j], u)
  }

  ghost predicate ReaderOk(s: State, rd: Reader) {
    && rd.ver < |s.bumps|
    && match rd
       case Started(_, _) => true
       case Missed(_, _) => true
       case GotRoles(u, ver, roles) => exists i :: RolesSince(s, u, roles, s.bumps[ver], i)
       case GotDirect(u, ver, roles, direct) =>
         exists i, j :: RolesSince(s, u, roles, s.bumps[ver], i) && DirectSince(s, u, direct, i, j)
       case Loaded(u, ver, roles, permissions) => FreshSince(s, u, roles, permissions, s.bumps[ver])
       case Answered(u, ver, roles, permissions) => FreshSince(s, u, roles, permissions, s.bumps[ver])
  }

  ghost predicate EntryOk(s: State, u: UserId, e: Entry) {
    0 <= e.version < |s.bumps| && FreshSince(s, u, e.roles, e.permissions, s.bumps[e.version])
  }

  ghost predicate Inv(s: State) {
    && WellFormed(s)
    && (forall r | r in s.readers :: ReaderOk(s, s.readers[r]))
    && (forall u | u in s.entries :: EntryOk(s, u, s.entries[u]))
  }

  /** s' only has more history than s. */
  predicate Extends(s: State, s': State) { s.hist <= s'.hist && s.bumps <= s'.bumps }

  lemma FreshStays(s: State, s': State, u: UserId, roles: seq<string>, permissions: seq<string>, from: nat)
    requires Extends(s, s') && FreshSince(s, u, roles, permissions, from)
    ensures FreshSince(s', u, roles, permissions, from)
  {
    var i: nat, j: nat, k: nat :| from <= i && ViewedAt(s, u, roles, permissions, i, j, k);
    assert ViewedAt(s', u, roles, permissions, i, j, k);
  }

  lemma ReaderStaysOk(s: State, s': State, rd: Reader)
    requires Extends(s, s') && ReaderOk(s, rd)
    ensures ReaderOk(s', rd)
  {
    match rd
    case GotRoles(u, ver, roles) =>
      var i :| RolesSince(s, u, roles, s.bumps[ver], i);
      assert RolesSince(s', u, roles, s'.bumps[ver], i);
    case GotDirect(u, ver, roles, direct) =>
      var i, j :| RolesSince(s, u, roles, s.bumps[ver], i) && DirectSince(s, u, direct, i, j);
      assert RolesSince(s', u, roles, s'.bumps[ver], i) && DirectSince(s', u, direct, i, j);
    case Loaded(u, ver, roles, permissions) => FreshStays(s, s', u, roles, permissions, s.bumps[ver]);
    case Answered(u, ver, roles, permissions) => FreshStays(s, s', u, roles, permissions, s.bumps[ver]);
    case _ =>
  }

  /** The reader that takes step e is still sound afterwards, torn reads included. */
  lemma ReaderAdvances(s: State, e: Step, r: ReaderId)
    requires Inv(s) && Enabled(s, e)
    requires (e.ReadRoles? || e.ReadDirect? || e.ReadInherited?) && e.r == r
    ensures ReaderOk(s, Apply(s, e).readers[r])
  {
    var rd := s.readers[r];
    var now := |s.hist| - 1;
    assert ReaderOk(s, rd) && s.bumps[rd.ver] <= now;
    match e
    case ReadRoles(_, rows) => assert RolesSince(s, rd.u, rows, s.bumps[rd.ver], now);
    case ReadDirect(_, rows) =>
      var i :| RolesSince(s, rd.u, rd.roles, s.bumps[rd.ver], i);
      assert DirectSince(s, rd.u, rows, i, now);
    case ReadInherited(_, rows) =>
      var i, j :| RolesSince(s, rd.u, rd.roles, s.bumps[rd.ver], i) && DirectSince(s, rd.u, rd.direct, i, j);
      ElementsConcat(rd.direct, rows);
      assert ViewedAt(s, rd.u, rd.roles, Union(rd.direct, rows), i, j, now);
    case _ =>
  }

  lemma ReadersStayOk(s: State, e: Step)
    requires Inv(s) && Enabled(s, e) && Extends(s, Apply(s, e))
    ensures forall r | r in Apply(s, e).readers :: ReaderOk(Apply(s, e), Apply(s, e).readers[r])
  {
    var s' := Apply(s, e);
    forall r | r in s'.readers ensures ReaderOk(s', s'.readers[r]) {
      if r in s.readers && s'.readers[r] == s.readers[r] {
        ReaderStaysOk(s, s', s.readers[r]);
      } else if e.ReadRoles? || e.ReadDirect? || e.ReadInherited? {
        ReaderAdvances(s, e, r);
        ReaderStaysOk(s, s', s'.readers[r]);
      } else if e.Hit? {
        assert EntryOk(s, s.readers[r].u, s.entries[s.readers[r].u]) && ReaderOk(s, s.readers[r]);
        ReaderStaysOk(s, s', s'.readers[r]);
      } else if e.SetEntry? || e.SetFails? || e.Miss? {
        assert ReaderOk(s, s.readers[r]);
        ReaderStaysOk(s, s', s'.readers[r]);
      }
    }
  }

  lemma EntriesStayOk(s: State, e: Step)
    requires Inv(s) && Enabled(s, e) && Extends(s, Apply(s, e))
    ensures forall u | u in Apply(s, e).entries :: EntryOk(Apply(s, e), u, Apply(s, e).entries[u])
  {
    var s' := Apply(s, e);
    forall u | u in s'.entries ensures EntryOk(s', u, s'.entries[u]) {
      var f := s'.entries[u];
      if u in s.entries && f == s.entries[u] {
        assert EntryOk(s, u, f);
      } else {
        assert ReaderOk(s, s.readers[e.r]);
      }
      FreshStays(s, s', u, f.roles, f.permissions, s.bumps[f.version]);
    }
  }

  lemma StepKeepsInv(s: State, e: Step)
    requires Inv(s) && Enabled(s, e)
    ensures Inv(Apply(s, e)) && Extends(s, Apply(s, e))
  {
    StepExtends(s, e);
    ReadersStayOk(s, e);
    EntriesStayOk(s, e);
  }

  lemma StepExtends(s: State, e: Step)
    requires WellFormed(s) && Enabled(s, e)
    ensures WellFormed(Apply(s, e)) && Extends(s, Apply(s, e))
  {
  }

  lemma {:induction false} RunKeepsInv(s: State, run: seq<Step>)
    requires Inv(s) && Valid(s, run)
    ensures Inv(Exec(s, run)) && Extends(s, Exec(s, run))
    decreases |run|
  {
    if run != [] {
      StepKeepsInv(s, run[0]);
      RunKeepsInv(Apply(s, run[0]), run[1..]);
    }
  }

  // ---------------------------------------------------------------------------
  // Main results
  // ---------------------------------------------------------------------------

  lemma RunFromInit(db: Db, run: seq<Step>)
    requires Valid(Init(db), run)
    ensures Inv(Exec(Init(db), run))
  {
    RunKeepsInv(Init(db), run);
  }

  /** Nothing u can see has changed since the last bump. */
  predicate Settled(s: State, u: UserId)
    requires WellFormed(s)
  {
    forall i | s.bumps[Version(s)] <= i < |s.hist| :: SameView(s.hist[i], Now(s), u)
  }

  /** Views taken while nothing u can see changed are the present view, however torn. */
  lemma FreshIsExact(s: State, u: UserId, roles: seq<string>, permissions: seq<string>, from: nat)
    requires WellFormed(s) && FreshSince(s, u, roles, permissions, from)
    requires forall i | from <= i < |s.hist| :: SameView(s.hist[i], Now(s), u)
    ensures Exact(Now(s), u, roles, permissions)
  {
  }

  lemma CurrentEntryExact(s: State, u: UserId)
    requires Inv(s) && Settled(s, u) && Cached(s, u, Version(s))
    ensures Exact(Now(s), u, s.entries[u].roles, s.entries[u].permissions)
  {
    var f := s.entries[u];
    assert EntryOk(s, u, f);
    FreshIsExact(s, u, f.roles, f.permissions, s.bumps[f.version]);
  }

  /**
   Coherence: in every interleaving, once every write that matters to u has been
   followed by a bump, an entry of the current version is exactly what the tables
   say, although it was put together from three separate reads.
   */
  lemma CurrentEntriesExact(db: Db, run: seq<Step>, u: UserId)
    requires Valid(Init(db), run)
    requires var s := Exec(Init(db), run); WellFormed(s) && Settled(s, u) && Cached(s, u, Version(s))
    ensures var s := Exec(Init(db), run); Exact(Now(s), u, s.entries[u].roles, s.entries[u].permissions)
  {
    RunFromInit(db, run);
    CurrentEntryExact(Exec(Init(db), run), u);
  }

  /**
   Freshness: whatever happens concurrently, a GetUser that begins after some state s
   answers from views of the tables no older than the last bump before s. So a command
   whose bump has happened is seen by every GetUser that begins afterwards.
   */
  lemma {:induction false} AnswersAreFresh(s: State, run: seq<Step>, r: ReaderId)
    requires Inv(s) && Valid(s, run)
    requires r in Exec(s, run).readers && Exec(s, run).readers[r].Answered?
    requires r !in s.readers
    ensures var s' := Exec(s, run);
            var a := s'.readers[r];
            FreshSince(s', a.u, a.roles, a.permissions, s.bumps[Version(s)])
    decreases |run|
  {
    RunKeepsInv(s, run);
    var s' := Exec(s, run);
    LateReader(s, run, r, Version(s));
    var a := s'.readers[r];
    assert ReaderOk(s', a);
    var i: nat, j: nat, k: nat :| s'.bumps[a.ver] <= i && ViewedAt(s', a.u, a.roles, a.permissions, i, j, k);
    assert s'.bumps[Version(s)] <= s'.bumps[a.ver];
  }

  /** A reader unknown at s, or begun under ver or later, ends under ver or later. */
  lemma {:induction false} LateReader(s: State, run: seq<Step>, r: ReaderId, ver: nat)
    requires Valid(s, run) && ver <= Version(s)
    requires r in s.readers ==> ver <= s.readers[r].ver
    ensures var s' := Exec(s, run); r in s'.readers ==> ver <= s'.readers[r].ver
    decreases |run|
  {
    if run != [] {
      LateReader(Apply(s, run[0]), run[1..], r, ver);
    }
  }

  /**
   A command's own GetUser: if nothing u can see changed from the write numbered w to
   the answer, and the bump came before the call began, the answer is exact.
   */
  lemma BumpedWriteIsSeen(s: State, run: seq<Step>, r: ReaderId, w: nat)
    requires Inv(s) && Valid(s, run)
    requires r !in s.readers
    requires r in Exec(s, run).readers && Exec(s, run).readers[r].Answered?
    requires w <= s.bumps[Version(s)]
    requires var s' := Exec(s, run);
             && WellFormed(s')
             && forall i | w <= i < |s'.hist| :: SameView(s'.hist[i], Now(s'), s'.readers[r].u)
    ensures var s' := Exec(s, run);
            WellFormed(s') && Exact(Now(s'), s'.readers[r].u, s'.readers[r].roles, s'.readers[r].permissions)
  {
    AnswersAreFresh(s, run, r);
    RunKeepsInv(s, run);
    var s' := Exec(s, run);
    var a := s'.readers[r];
    FreshIsExact(s', a.u, a.roles, a.permissions, s.bumps[Version(s)]);
  }

  /** Commands that skip the bump do not unsettle anybody. */
  lemma UnbumpedCommandSettles(s: State, cmd: Command, u: UserId)
    requires WellFormed(s) && Settled(s, u)
    requires Consistent(Now(s)) && FreshIds(Now(s), cmd) && Execute(Now(s), cmd).1 != Done(true)
    ensures var s' := Apply(s, Write(Execute(Now(s), cmd).0)); WellFormed(s') && Settled(s', u)
  {
    NoBumpNoChange(Now(s), cmd, u);
    var s' := Apply(s, Write(Execute(Now(s), cmd).0));
    forall i | s'.bumps[Version(s')] <= i < |s'.hist| ensures SameView(s'.hist[i], Now(s'), u) {
      if i < |s.hist| { assert SameView(s.hist[i], Now(s), u); }
    }
  }

  lemma {:induction false} ExecSnoc(s: State, run: seq<Step>, e: Step)
    requires Valid(s, run) && WellFormed(Exec(s, run)) && Enabled(Exec(s, run), e)
    requires WellFormed(Apply(Exec(s, run), e))
    ensures Valid(s, run + [e])
    ensures Exec(s, run + [e]) == Apply(Exec(s, run), e)
    decreases |run|
  {
    if run == [] {
      assert [e][1..] == [];
    } else {
      ExecSnoc(Apply(s, run[0]), run[1..], e);
      assert (run + [e])[1..] == run[1..] + [e];
    }
  }

  lemma Extend(s0: State, run: seq<Step>, s: State, e: Step) returns (run': seq<Step>, s': State)
    requires WellFormed(s) && Valid(s0, run) && s == Exec(s0, run) && Enabled(s, e)
    ensures s' == Apply(s, e) && WellFormed(s')
    ensures Valid(s0, run') && s' == Exec(s0, run')
  {
    StepExtends(s, e);
    ExecSnoc(s0, run, e);
    run', s' := run + [e], Apply(s, e);
  }

  // ---------------------------------------------------------------------------
  // Exactly when a history of writes and bumps keeps the cache coherent
  // ---------------------------------------------------------------------------

  /** The history of some run: the states written, and the index of the state at each bump. */
  predicate History(hist: seq<Db>, bumps: seq<nat>) {
    WellFormed(State(hist, bumps, map[], map[])) && bumps[0] == 0
  }

  /**
   Whatever a reader puts together from states since the last bump, in the order of its
   three reads, is what u has now.
   */
  predicate Compatible(s: State, u: UserId)
    requires WellFormed(s)
  {
    var from := s.bumps[Version(s)];
    && (forall i | from <= i < |s.hist| :: RoleCodes(s.hist[i], u) == RoleCodes(Now(s), u))
    && (forall j, k | from <= j <= k < |s.hist| ::
          DirectCodes(s.hist[j], u) + InheritedCodes(s.hist[k], u) ==
          DirectCodes(Now(s), u) + InheritedCodes(Now(s), u))
  }

  predicate ExactIfCurrent(s: State, u: UserId)
    requires WellFormed(s)
  {
    Cached(s, u, Version(s)) ==> Exact(Now(s), u, s.entries[u].roles, s.entries[u].permissions)
  }

  lemma CompatibleIsExact(s: State, u: UserId)
    requires Inv(s) && Compatible(s, u)
    ensures ExactIfCurrent(s, u)
  {
    if Cached(s, u, Version(s)) {
      var f := s.entries[u];
      assert EntryOk(s, u, f);
      var i: nat, j: nat, k: nat :| s.bumps[f.version] <= i && ViewedAt(s, u, f.roles, f.permissions, i, j, k);
    }
  }

  lemma DifferingView(s: State, u: UserId) returns (i: nat, j: nat, k: nat)
    requires WellFormed(s) && !Compatible(s, u)
    ensures s.bumps[Version(s)] <= i <= j <= k < |s.hist|
    ensures RoleCodes(s.hist[i], u) != RoleCodes(Now(s), u)
            || DirectCodes(s.hist[j], u) + InheritedCodes(s.hist[k], u) !=
               DirectCodes(Now(s), u) + InheritedCodes(Now(s), u)
  {
    var from := s.bumps[Version(s)];
    if r :| from <= r < |s.hist| && RoleCodes(s.hist[r], u) != RoleCodes(Now(s), u) {
      i, j, k := r, r, r;
    } else {
      i := from;
      j, k :| from <= j <= k < |s.hist| &&
        DirectCodes(s.hist[j], u) + InheritedCodes(s.hist[k], u) != DirectCodes(Now(s), u) + InheritedCodes(Now(s), u);
    }
  }

  lemma Writes(s0: State, run: seq<Step>, s: State, hist: seq<Db>, n: nat) returns (run': seq<Step>, s': State)
    requires WellFormed(s) && Valid(s0, run) && s == Exec(s0, run)
    requires |s.hist| <= n <= |hist| && s.hist == hist[..|s.hist|]
    ensures Valid(s0, run') && s' == Exec(s0, run') && WellFormed(s')
    ensures s' == s.(hist := hist[..n])
    decreases n - |s.hist|
  {
    if |s.hist| == n {
      run', s' := run, s;
    } else {
      var m := |s.hist|;
      run', s' := Extend(s0, run, s, Write(hist[m]));
      assert hist[..m + 1] == hist[..m] + [hist[m]];
      run', s' := Writes(s0, run', s', hist, n);
    }
  }

  /** The writes up to the v-th bump, and the bumps so far. */
  ghost predicate Replayed(hist: seq<Db>, bumps: seq<nat>, v: nat, run: seq<Step>, s: State) {
    && 1 <= v <= |bumps| && bumps[v - 1] < |hist|
    && Valid(Init(hist[0]), run) && s == Exec(Init(hist[0]), run) && WellFormed(s)
    && s == State(hist[..bumps[v - 1] + 1], bumps[..v], map[], map[])
  }

  lemma ReplayOne(hist: seq<Db>, bumps: seq<nat>, v: nat, run: seq<Step>, s: State) returns (run': seq<Step>, s': State)
    requires Replayed(hist, bumps, v, run, s) && v < |bumps| && bumps[v - 1] <= bumps[v] < |hist|
    ensures Replayed(hist, bumps, v + 1, run', s')
  {
    assert s.hist == hist[..|s.hist|];
    run', s' := Writes(Init(hist[0]), run, s, hist, bumps[v] + 1);
    run', s' := Extend(Init(hist[0]), run', s', Bump);
    assert s'.bumps == bumps[..v] + [bumps[v]] == bumps[..v + 1];
  }

  lemma {:induction false} Replay(hist: seq<Db>, bumps: seq<nat>, v: nat) returns (run: seq<Step>, s: State)
    requires History(hist, bumps) && 1 <= v <= |bumps|
    ensures Replayed(hist, bumps, v, run, s)
    decreases v
  {
    if v == 1 {
      run, s := [], Init(hist[0]);
    } else {
      run, s := Replay(hist, bumps, v - 1);
      run, s := ReplayOne(hist, bumps, v - 1, run, s);
    }
  }

  lemma {:induction false} RowsFor(codes: set<string>) returns (rows: seq<string>)
    ensures Elements(rows) == codes
    decreases codes
  {
    rows := [];
    if c :| c in codes {
      rows := RowsFor(codes - {c});
      ElementsSnoc(rows, c);
      rows := rows + [c];
    }
  }

  /** The only reader, at rd, when the tables are in state n. */
  ghost predicate ReaderAt(hist: seq<Db>, bumps: seq<nat>, run: seq<Step>, s: State, n: nat, rd: Reader) {
    && |hist| > 0 && n < |hist|
    && Valid(Init(hist[0]), run) && s == Exec(Init(hist[0]), run) && WellFormed(s)
    && s == State(hist[..n + 1], bumps, map[], map[0 := rd])
  }

  /** It begins after the last bump and misses. */
  lemma TornBegin(hist: seq<Db>, bumps: seq<nat>, u: UserId) returns (run: seq<Step>, s: State)
    requires History(hist, bumps)
    ensures ReaderAt(hist, bumps, run, s, bumps[|bumps| - 1], Missed(u, |bumps| - 1))
  {
    run, s := Replay(hist, bumps, |bumps|);
    assert bumps[..|bumps|] == bumps;
    run, s := Extend(Init(hist[0]), run, s, Begin(0, u));
    assert s.readers == map[0 := Started(u, |bumps| - 1)];
    run, s := Extend(Init(hist[0]), run, s, Miss(0));
  }

  /** The tables move on while it waits. */
  lemma TornWait(hist: seq<Db>, bumps: seq<nat>, run: seq<Step>, s: State, n: nat, rd: Reader, m: nat)
    returns (run': seq<Step>, s': State)
    requires ReaderAt(hist, bumps, run, s, n, rd) && n <= m < |hist|
    ensures ReaderAt(hist, bumps, run', s', m, rd)
  {
    assert hist[..n + 1] == hist[..|s.hist|];
    run', s' := Writes(Init(hist[0]), run, s, hist, m + 1);
  }

  /** It reads its roles in state i. */
  lemma TornRoles(hist: seq<Db>, bumps: seq<nat>, u: UserId, i: nat)
    returns (run: seq<Step>, s: State, roles: seq<string>)
    requires History(hist, bumps) && bumps[|bumps| - 1] <= i < |hist|
    ensures ReaderAt(hist, bumps, run, s, i, GotRoles(u, |bumps| - 1, roles))
    ensures Elements(roles) == RoleCodes(hist[i], u)
  {
    var ver := |bumps| - 1;
    roles := RowsFor(RoleCodes(hist[i], u));
    run, s := TornBegin(hist, bumps, u);
    run, s := TornWait(hist, bumps, run, s, bumps[ver], Missed(u, ver), i);
    run, s := Extend(Init(hist[0]), run, s, ReadRoles(0, roles));
    assert s.readers == map[0 := GotRoles(u, ver, roles)];
  }

  /** It reads its direct permissions in state j. */
  lemma TornDirect(hist: seq<Db>, bumps: seq<nat>, u: UserId, i: nat, j: nat)
    returns (run: seq<Step>, s: State, roles: seq<string>, direct: seq<string>)
    requires History(hist, bumps) && bumps[|bumps| - 1] <= i <= j < |hist|
    ensures ReaderAt(hist, bumps, run, s, j, GotDirect(u, |bumps| - 1, roles, direct))
    ensures Elements(roles) == RoleCodes(hist[i], u) && Elements(direct) == DirectCodes(hist[j], u)
  {
    var ver := |bumps| - 1;
    direct := RowsFor(DirectCodes(hist[j], u));
    run, s, roles := TornRoles(hist, bumps, u, i);
    run, s := TornWait(hist, bumps, run, s, i, GotRoles(u, ver, roles), j);
    run, s := Extend(Init(hist[0]), run, s, ReadDirect(0, direct));
    assert s.readers == map[0 := GotDirect(u, ver, roles, direct)];
  }

  /** It reads the inherited ones in state k, and caches what it has. */
  lemma TornEnd(hist: seq<Db>, bumps: seq<nat>, u: UserId, i: nat, j: nat, k: nat) returns (run: seq<Step>, s: State)
    requires History(hist, bumps) && bumps[|bumps| - 1] <= i <= j <= k < |hist|
    ensures Valid(Init(hist[0]), run) && s == Exec(Init(hist[0]), run) && s.hist == hist && s.bumps == bumps
    ensures WellFormed(s) && Cached(s, u, Version(s))
    ensures Elements(s.entries[u].roles) == RoleCodes(hist[i], u)
    ensures Elements(s.entries[u].permissions) == DirectCodes(hist[j], u) + InheritedCodes(hist[k], u)
  {
    var ver := |bumps| - 1;
    var roles, direct;
    run, s, roles, direct := TornDirect(hist, bumps, u, i, j);
    var inherited := RowsFor(InheritedCodes(hist[k], u));
    run, s := TornWait(hist, bumps, run, s, j, GotDirect(u, ver, roles, direct), k);
    run, s := Extend(Init(hist[0]), run, s, ReadInherited(0, inherited));
    ElementsConcat(direct, inherited);
    var permissions := Union(direct, inherited);
    assert s.readers == map[0 := Loaded(u, ver, roles, permissions)];
    run, s := Extend(Init(hist[0]), run, s, SetEntry(0));
    assert s.entries == map[u := Entry(ver, roles, permissions)];
    run, s := Writes(Init(hist[0]), run, s, hist, |hist|);
    assert hist[..|hist|] == hist;
  }

  ghost predicate Reaches(hist: seq<Db>, bumps: seq<nat>, run: seq<Step>) {
    |hist| > 0 && Valid(Init(hist[0]), run)
    && Exec(Init(hist[0]), run).hist == hist && Exec(Init(hist[0]), run).bumps == bumps
  }

  /**
   Coherence, exactly: given what was written and when it was bumped, every interleaving of
   readers leaves only exact entries of the current version for u if and only if no torn
   view since the last bump differs from what u has now.
   */
  lemma CoherentIff(hist: seq<Db>, bumps: seq<nat>, u: UserId)
    requires History(hist, bumps)
    ensures (forall run | Reaches(hist, bumps, run) ::
               WellFormed(Exec(Init(hist[0]), run)) && ExactIfCurrent(Exec(Init(hist[0]), run), u))
            <==> Compatible(State(hist, bumps, map[], map[]), u)
  {
    var h := State(hist, bumps, map[], map[]);
    if Compatible(h, u) {
      forall run | Reaches(hist, bumps, run)
        ensures WellFormed(Exec(Init(hist[0]), run)) && ExactIfCurrent(Exec(Init(hist[0]), run), u)
      {
        RunFromInit(hist[0], run);
        CompatibleIsExact(Exec(Init(hist[0]), run), u);
      }
    } else {
      var i, j, k := DifferingView(h, u);
      var run, s := TornEnd(hist, bumps, u, i, j, k);
      assert Reaches(hist, bumps, run) && !ExactIfCurrent(s, u);
    }
  }

  /** A user moved from role a, which carries a permission, to role b, which carries none. */
  function Before(): Db {
    Db(map["a" := Role(0, "a"), "b" := Role(1, "b")], map["p" := Permission(0, "g", "p")], {("u", 0)}, {}, {(0, 0)},
       {"u"}, Postgres)
  }

  function After(): Db { Before().(userRoles := {("u", 1)}) }

  lemma ViewsBeforeAndAfter()
    ensures RoleCodes(Before(), "u") == {"a"} && RoleCodes(After(), "u") == {"b"}
    ensures "p" in InheritedCodes(Before(), "u")
    ensures DirectCodes(After(), "u") == {} && InheritedCodes(After(), "u") == {}
  {
  }

  /** Between a write and its bump, a torn read can leave an entry of the current version
      that matches no state the tables were ever in. */
  lemma TornEntryPossible() returns (run: seq<Step>)
    ensures Valid(Init(Before()), run)
    ensures var s := Exec(Init(Before()), run);
            && WellFormed(s) && Cached(s, "u", Version(s))
            && forall i | 0 <= i < |s.hist| :: !Exact(s.hist[i], "u", s.entries["u"].roles, s.entries["u"].permissions)
  {
    ViewsBeforeAndAfter();
    var s;
    run, s := TornEnd([Before(), After()], [0], "u", 0, 1, 1);
  }
}
