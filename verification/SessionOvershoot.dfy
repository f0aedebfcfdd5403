/** How far the session cap can be exceeded: without bound, one revived session at a time. */
module SessionOvershoot {
  import opened Common
  import opened Sequences
  import opened Sessions
  import opened SessionRuns
  import opened SessionCap

  lemma {:induction false} ExecSnoc(c: Config, s: State, run: seq<Command>, cmd: Command)
    requires Valid(c, s, run) && Enabled(Exec(c, s, run), cmd)
    ensures Valid(c, s, run + [cmd])
    ensures Exec(c, s, run + [cmd]) == Execute(c, Exec(c, s, run), cmd).0
    decreases |run|
  {
    if run == [] {
      assert [cmd][1..] == [];
    } else {
      ExecSnoc(c, Execute(c, s, run[0]).0, run[1..], cmd);
      assert (run + [cmd])[1..] == run[1..] + [cmd];
    }
  }

  lemma Extend(c: Config, run: seq<Command>, s: State, cmd: Command) returns (run': seq<Command>, s': State)
    requires Valid(c, Init, run) && s == Exec(c, Init, run) && Enabled(s, cmd)
    ensures s' == Execute(c, s, cmd).0 && Valid(c, Init, run') && s' == Exec(c, Init, run')
  {
    ExecSnoc(c, Init, run, cmd);
    run', s' := run + [cmd], Execute(c, s, cmd).0;
  }

  /** User 0 may log in, and each of its active tokens was issued at this very instant. */
  predicate Fleet(c: Config, s: State) {
    Inv(c, s) && 0 in s.users && !s.users[0] && AllNew(c, s)
  }

  predicate IsStale(s: State, t: TokenId) {
    t in s.tokens && s.tokens[t].user == 0 && !s.tokens[t].revoked && s.tokens[t].expiresAt == s.now
  }

  /** Sessions whose live token is at its expiry instant: not active, yet still good for a refresh. */
  function Stale(s: State): set<FamilyId> {
    set t | t in s.tokens && IsStale(s, t) :: s.tokens[t].family
  }

  lemma FreshJti(jtis: set<Jti>) returns (jti: Jti)
    ensures jti !in jtis && jti != ""
  {
    var n := FreshNat((set j | j in jtis :: |j|) + {0});
    jti := seq(n, i => 'a');
    assert |jti| == n;
  }

  lemma FreshIdentifiers(s: State) returns (id: TokenId, f: FamilyId, jti: Jti)
    ensures id !in s.tokens && jti !in s.issued && jti != ""
    ensures f !in s.signedOut && forall t | t in s.tokens :: s.tokens[t].family != f
  {
    id := FreshNat(s.tokens.Keys);
    f := FreshNat(s.signedOut + set t | t in s.tokens :: s.tokens[t].family);
    jti := FreshJti(s.issued.Keys);
  }

  /** All active tokens of user 0 were issued at this instant. */
  predicate AllNew(c: Config, s: State) {
    forall t | t in s.tokens && IsActive(s.tokens, t, 0, s.now) :: s.tokens[t].expiresAt == s.now + c.refreshTtl
  }

  lemma IssueKeepsNew(c: Config, s: State, f: FamilyId, id: TokenId, jti: Jti)
    requires Sound(c) && AllNew(c, s) && id !in s.tokens
    ensures AllNew(c, Issue(c, s, 0, f, id, jti)) && Stale(Issue(c, s, 0, f, id, jti)) == Stale(s)
  {
    var s' := Issue(c, s, 0, f, id, jti);
    assert !IsStale(s', id);
    forall t | t in s.tokens ensures IsStale(s', t) <==> IsStale(s, t) {}
    forall t | t in s'.tokens && IsActive(s'.tokens, t, 0, s'.now)
        ensures s'.tokens[t].expiresAt == s'.now + c.refreshTtl {
      assert t != id ==> IsActive(s.tokens, t, 0, s.now);
    }
    forall g | g in Stale(s) ensures g in Stale(s') {
      var t :| t in s.tokens && IsStale(s, t) && s.tokens[t].family == g;
      assert t in s'.tokens && IsStale(s', t) && s'.tokens[t].family == g;
    }
  }

  /** A login below the cap evicts nobody and leaves the stale sessions as they are. */
  lemma OneLogin(c: Config, s: State) returns (cmd: Command)
    requires Sound(c) && Fleet(c, s) && |Active(s, 0)| < c.maxSessions
    ensures Enabled(s, cmd)
    ensures var s' := Execute(c, s, cmd).0;
            Fleet(c, s') && |Active(s', 0)| == |Active(s, 0)| + 1 && Stale(s') == Stale(s)
  {
    var id, f, jti := FreshIdentifiers(s);
    var l := ListingExists(s.tokens, 0, s.now);
    DistinctSize(l);
    cmd := Login(0, id, f, jti, l);
    assert l[..0] == [];
    assert Execute(c, s, cmd).0 == Issue(c, s, 0, f, id, jti);
    StepKeepsInv(c, s, cmd);
    LoginEvictsOldest(c, s, cmd);
    IssueKeepsNew(c, s, f, id, jti);
  }

  /** Marking a stale session's token as used. */
  lemma UseStale(c: Config, s: State, p: TokenId)
    requires Inv(c, s) && AllNew(c, s) && p in s.tokens && IsStale(s, p)
    ensures var s' := s.(tokens := s.tokens[p := s.tokens[p].(revoked := true)]);
            AllNew(c, s') && Stale(s') == Stale(s) - {s.tokens[p].family} && s.tokens[p].family in Stale(s)
  {
    var s' := s.(tokens := s.tokens[p := s.tokens[p].(revoked := true)]);
    forall t | t in s.tokens && t != p ensures IsStale(s', t) <==> IsStale(s, t) {}
    assert forall t | t in s.tokens && t != p && IsStale(s, t) :: s.tokens[t].family != s.tokens[p].family;
    assert forall t | t in s.tokens && IsActive(s'.tokens, t, 0, s.now) ::
        IsActive(s.tokens, t, 0, s.now) && s'.tokens[t] == s.tokens[t];
    forall g | g in Stale(s) && g != s.tokens[p].family ensures g in Stale(s') {
      var t :| t in s.tokens && IsStale(s, t) && s.tokens[t].family == g;
      assert t in s'.tokens && IsStale(s', t) && s'.tokens[t].family == g;
    }
  }

  /** A refresh of a stale session makes one more active one. */
  lemma OneRevival(c: Config, s: State) returns (cmd: Command)
    requires Sound(c) && Fleet(c, s) && Stale(s) != {}
    ensures Enabled(s, cmd)
    ensures var s' := Execute(c, s, cmd).0;
            Fleet(c, s') && |Active(s', 0)| == |Active(s, 0)| + 1 && |Stale(s')| == |Stale(s)| - 1
  {
    var f :| f in Stale(s);
    var p :| p in s.tokens && IsStale(s, p) && s.tokens[p].family == f;
    var id, _, jti := FreshIdentifiers(s);
    cmd := Refresh(Some(p), id, jti);
    var used := s.(tokens := s.tokens[p := s.tokens[p].(revoked := true)]);
    assert Execute(c, s, cmd).0 == Issue(c, used, 0, f, id, jti);
    StepKeepsInv(c, s, cmd);
    RefreshKeepsActiveIff(c, s, cmd);
    UseStale(c, s, p);
    IssueKeepsNew(c, used, f, id, jti);
  }

  /** A refresh lifetime later, every active session is stale and none is active. */
  lemma NextRound(c: Config, s: State)
    requires Sound(c) && Fleet(c, s)
    ensures var s' := Execute(c, s, Tick(c.refreshTtl as nat)).0;
            Fleet(c, s') && Active(s', 0) == {} && Stale(s') == Active(s, 0)
  {
    var cmd := Tick(c.refreshTtl as nat);
    var s' := Execute(c, s, cmd).0;
    StepKeepsInv(c, s, cmd);
    forall t | t in s.tokens
      ensures IsStale(s', t) <==> IsActive(s.tokens, t, 0, s.now)
      ensures !IsActive(s'.tokens, t, 0, s'.now)
    {
      assert IsActive(s.tokens, t, 0, s.now) ==> s.tokens[t].expiresAt == s.now + c.refreshTtl;
    }
  }

  lemma {:induction false} LogInUpToCap(c: Config, run: seq<Command>, s: State) returns (run': seq<Command>, s': State)
    requires Sound(c) && Valid(c, Init, run) && s == Exec(c, Init, run)
    requires Fleet(c, s) && |Active(s, 0)| <= c.maxSessions
    ensures Valid(c, Init, run') && s' == Exec(c, Init, run')
    ensures Fleet(c, s') && |Active(s', 0)| == c.maxSessions && Stale(s') == Stale(s)
    decreases c.maxSessions - |Active(s, 0)|
  {
    if |Active(s, 0)| == c.maxSessions {
      run', s' := run, s;
    } else {
      var cmd := OneLogin(c, s);
      run', s' := Extend(c, run, s, cmd);
      run', s' := LogInUpToCap(c, run', s');
    }
  }

  lemma {:induction false} Revive(c: Config, run: seq<Command>, s: State, n: nat)
    returns (run': seq<Command>, s': State)
    requires Sound(c) && Valid(c, Init, run) && s == Exec(c, Init, run)
    requires Fleet(c, s) && n <= |Stale(s)|
    ensures Valid(c, Init, run') && s' == Exec(c, Init, run')
    ensures Fleet(c, s') && |Active(s', 0)| == |Active(s, 0)| + n
    decreases n
  {
    if n == 0 {
      run', s' := run, s;
    } else {
      var cmd := OneRevival(c, s);
      run', s' := Extend(c, run, s, cmd);
      run', s' := Revive(c, run', s', n - 1);
    }
  }

  lemma {:induction false} Round(c: Config, n: nat) returns (run: seq<Command>, s: State)
    requires Sound(c) && 1 <= c.maxSessions
    ensures Valid(c, Init, run) && s == Exec(c, Init, run)
    ensures Fleet(c, s) && |Active(s, 0)| == c.maxSessions + n
    decreases n
  {
    if n == 0 {
      run, s := Extend(c, [], Init, SetSuspended(0, false));
      StepKeepsInv(c, Init, SetSuspended(0, false));
      assert Active(s, 0) == {};
    } else {
      run, s := Round(c, n - 1);
      NextRound(c, s);
      run, s := Extend(c, run, s, Tick(c.refreshTtl as nat));
    }
    run, s := LogInUpToCap(c, run, s);
    run, s := Revive(c, run, s, n);
  }

  /** Whatever the cap, and however many sessions more, some run ends with so many active. */
  lemma CapFailsWithoutBound(c: Config, n: nat) returns (run: seq<Command>)
    requires Sound(c) && 1 <= c.maxSessions
    ensures Valid(c, Init, run) && |Active(Exec(c, Init, run), 0)| == c.maxSessions + n
  {
    var s;
    run, s := Round(c, n);
  }
}
