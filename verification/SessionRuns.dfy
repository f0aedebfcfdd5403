/** What whole runs of session commands guarantee. */
module SessionRuns {
  import opened Sequences
  import opened Clock
  import opened Sessions

  /** A new row in a family that is not signed out and has no live row. */
  lemma IssueKeepsInv(c: Config, s: State, u: UserId, f: FamilyId, id: TokenId, jti: Jti)
    requires Sound(c) && Inv(c, s)
    requires id !in s.tokens && jti !in s.issued && jti != "" && f !in s.signedOut
    requires forall t | t in s.tokens && s.tokens[t].family == f :: s.tokens[t].revoked && s.tokens[t].user == u
    ensures Inv(c, Issue(c, s, u, f, id, jti))
  {
    var s' := Issue(c, s, u, f, id, jti);
    IssueKeepsRows(c, s, u, f, id, jti);
    forall j | j in s'.issued ensures DenialOk(c, s', j) {
      if j == jti { NewJtiNotDenied(c, s, j); } else { assert DenialOk(c, s, j); }
    }
    forall k | k in s'.cache ensures IsDenyKey(s', k) {
      assert IsDenyKey(s, k);
      var j :| j in s.issued && k == DenyKey(j);
      assert j in s'.issued;
    }
  }

  lemma NewJtiNotDenied(c: Config, s: State, jti: Jti)
    requires Inv(c, s) && jti !in s.issued
    ensures DenyKey(jti) !in s.cache
  {
    if DenyKey(jti) in s.cache {
      assert IsDenyKey(s, DenyKey(jti));
      var i :| i in s.issued && DenyKey(jti) == DenyKey(i);
      DenyKeyInjective(i, jti);
      assert false;
    }
  }

  lemma IssueKeepsRows(c: Config, s: State, u: UserId, f: FamilyId, id: TokenId, jti: Jti)
    requires RowsOk(s) && FamiliesOk(s)
    requires id !in s.tokens && jti !in s.issued && jti != "" && f !in s.signedOut
    requires forall t | t in s.tokens && s.tokens[t].family == f :: s.tokens[t].revoked && s.tokens[t].user == u
    ensures RowsOk(Issue(c, s, u, f, id, jti)) && FamiliesOk(Issue(c, s, u, f, id, jti))
  {
    var s' := Issue(c, s, u, f, id, jti);
    forall j | j in s'.issued ensures HasRow(s', j) {
      if j == jti {
        assert s'.tokens[id].jti == j;
      } else {
        assert HasRow(s, j);
        var t :| t in s.tokens && s.tokens[t].jti == j;
        assert t in s'.tokens && s'.tokens[t].jti == j;
      }
    }
    forall g | g in s'.signedOut ensures HasFamily(s', g) {
      assert HasFamily(s, g);
      var t :| t in s.tokens && s.tokens[t].family == g;
      assert t in s'.tokens && s'.tokens[t].family == g;
    }
  }

  lemma QuietKeepsInv(c: Config, s: State, s': State)
    requires Sound(c) && Inv(c, s)
    requires s.now <= s'.now && s' == s.(now := s'.now, users := s'.users)
    ensures Inv(c, s')
  {
    UnixMonotone(s.now + c.accessTtl, s'.now + c.accessTtl);
    forall j | j in s'.issued ensures HasRow(s', j) && DenialOk(c, s', j) {
      assert HasRow(s, j) && DenialOk(c, s, j);
    }
    forall g | g in s'.signedOut ensures HasFamily(s', g) { assert HasFamily(s, g); }
    forall k | k in s'.cache ensures IsDenyKey(s', k) { assert IsDenyKey(s, k); }
  }

  /** Marking the presented row revoked, between its check and the issue. */
  lemma RevokeOneKeepsInv(c: Config, s: State, p: TokenId)
    requires Sound(c) && Inv(c, s) && p in s.tokens
    ensures Inv(c, s.(tokens := s.tokens[p := s.tokens[p].(revoked := true)]))
  {
    var s' := s.(tokens := s.tokens[p := s.tokens[p].(revoked := true)]);
    OnlyRevokedKeepsRows(s, s');
    OnlyRevokedKeepsFamilies(s, s');
    forall j | j in s'.issued ensures DenialOk(c, s', j) { assert DenialOk(c, s, j); }
    forall k | k in s'.cache ensures IsDenyKey(s', k) { assert IsDenyKey(s, k); }
  }

  /** s' has the rows of s, some of them revoked since. */
  predicate OnlyRevoked(s: State, s': State) {
    && s' == s.(tokens := s'.tokens) && s'.tokens.Keys == s.tokens.Keys
    && forall t | t in s.tokens :: s'.tokens[t] == s.tokens[t].(revoked := s'.tokens[t].revoked)
                                   && (s.tokens[t].revoked ==> s'.tokens[t].revoked)
  }

  lemma OnlyRevokedKeepsRows(s: State, s': State)
    requires RowsOk(s) && OnlyRevoked(s, s')
    ensures RowsOk(s')
  {
    forall j | j in s'.issued ensures HasRow(s', j) {
      assert HasRow(s, j);
      var t :| t in s.tokens && s.tokens[t].jti == j;
      assert t in s'.tokens && s'.tokens[t].jti == j;
    }
  }

  lemma OnlyRevokedKeepsFamilies(s: State, s': State)
    requires FamiliesOk(s) && OnlyRevoked(s, s')
    ensures FamiliesOk(s')
  {
    forall g | g in s'.signedOut ensures HasFamily(s', g) {
      assert HasFamily(s, g);
      var t :| t in s.tokens && s.tokens[t].family == g;
      assert t in s'.tokens && s'.tokens[t].family == g;
    }
  }

  function RowsAfter(tokens: map<TokenId, Token>, evicted: seq<FamilyId>): map<TokenId, Token> {
    map t | t in tokens :: if tokens[t].family in evicted then tokens[t].(revoked := true) else tokens[t]
  }

  /** Evicting a list of families: what it leaves of the rows and of the history. */
  lemma {:induction false} SignOutAllEffect(c: Config, s: State, l: seq<FamilyId>)
    ensures var s' := SignOutAll(c, s, l);
            && s' == s.(tokens := s'.tokens, cache := s'.cache, signedOut := s.signedOut + Elements(l))
            && s'.tokens == RowsAfter(s.tokens, l)
  {
    if l == [] {
      assert s.signedOut + Elements(l) == s.signedOut;
    } else {
      var front, f := l[..|l| - 1], l[|l| - 1];
      SignOutAllEffect(c, s, front);
      assert front + [f] == l;
      assert forall g :: g in l <==> g in front || g == f;
      ElementsSnoc(front, f);
      assert s.signedOut + Elements(front) + {f} == s.signedOut + Elements(l);
      assert FamilyRevoked(RowsAfter(s.tokens, front), f) == RowsAfter(s.tokens, l);
    }
  }

  lemma {:induction false} SignOutAllKeepsInv(c: Config, s: State, l: seq<FamilyId>)
    requires Sound(c) && Inv(c, s)
    requires forall f {:trigger HasFamily(s, f)} | f in l :: HasFamily(s, f)
    ensures Inv(c, SignOutAll(c, s, l))
  {
    if l != [] {
      var front, f := l[..|l| - 1], l[|l| - 1];
      SignOutAllEffect(c, s, front);
      SignOutAllKeepsInv(c, s, front);
      var s1 := SignOutAll(c, s, front);
      assert HasFamily(s, f);
      var t :| t in s.tokens && s.tokens[t].family == f;
      assert t in s1.tokens && s1.tokens[t].family == f;
      SignOutKeepsInv(c, s1, f);
    }
  }

  lemma LoginKeepsInv(c: Config, s: State, cmd: Command)
    requires Sound(c) && Inv(c, s) && Enabled(s, cmd) && cmd.Login?
    ensures Inv(c, Execute(c, s, cmd).0)
  {
    if MayLogin(s, cmd.user) {
      var evicted := cmd.listing[..Excess(c, |cmd.listing|)];
      ListedFamiliesExist(s, cmd.user, cmd.listing);
      assert forall f | f in evicted :: f in cmd.listing;
      SignOutAllEffect(c, s, evicted);
      SignOutAllKeepsInv(c, s, evicted);
      assert !HasFamily(s, cmd.family);
      assert cmd.family !in evicted;
      IssueKeepsInv(c, SignOutAll(c, s, evicted), cmd.user, cmd.family, cmd.id, cmd.jti);
    }
  }

  lemma ListedFamiliesExist(s: State, u: UserId, l: seq<FamilyId>)
    requires IsListing(s.tokens, u, s.now, l)
    ensures forall f {:trigger HasFamily(s, f)} | f in l :: HasFamily(s, f)
  {
    forall f | f in l ensures HasFamily(s, f) {
      assert f in Elements(l);
      assert f in ActiveFamilies(s.tokens, u, s.now);
    }
  }

  lemma RefreshKeepsInv(c: Config, s: State, cmd: Command)
    requires Sound(c) && Inv(c, s) && Enabled(s, cmd) && cmd.Refresh?
    ensures Inv(c, Execute(c, s, cmd).0)
  {
    if cmd.presented.Some? && cmd.presented.value in s.tokens {
      var p := cmd.presented.value;
      var t := s.tokens[p];
      if t.revoked {
        SignOutKeepsInv(c, s, t.family);
      } else if Rotates(s, cmd.presented) {
        RevokeOneKeepsInv(c, s, p);
        var s1 := s.(tokens := s.tokens[p := t.(revoked := true)]);
        IssueKeepsInv(c, s1, t.user, t.family, cmd.id, cmd.jti);
      }
    }
  }

  lemma StepKeepsInv(c: Config, s: State, cmd: Command)
    requires Sound(c) && Inv(c, s) && Enabled(s, cmd)
    ensures Inv(c, Execute(c, s, cmd).0)
  {
    match cmd
    case Login(_, _, _, _, _) => LoginKeepsInv(c, s, cmd);
    case Refresh(_, _, _) => RefreshKeepsInv(c, s, cmd);
    case Logout(u, presented) =>
      if presented.Some? && presented.value in s.tokens && s.tokens[presented.value].user == u {
        SignOutKeepsInv(c, s, s.tokens[presented.value].family);
      }
    case RevokeSession(u, f) =>
      if f in ActiveFamilies(s.tokens, u, s.now) {
        assert HasFamily(s, f);
        SignOutKeepsInv(c, s, f);
      }
    case ChangePassword(u) => SignOutUserKeepsInv(c, s, u);
    case ResetPassword(u) => SignOutUserKeepsInv(c, s, u);
    case SetSuspended(_, _) => QuietKeepsInv(c, s, Execute(c, s, cmd).0);
    case Tick(_) => QuietKeepsInv(c, s, Execute(c, s, cmd).0);
  }

  lemma {:induction false} RunKeepsInv(c: Config, s: State, run: seq<Command>)
    requires Sound(c) && Inv(c, s) && Valid(c, s, run)
    ensures Inv(c, Exec(c, s, run))
    decreases |run|
  {
    if run != [] {
      StepKeepsInv(c, s, run[0]);
      RunKeepsInv(c, Execute(c, s, run[0]).0, run[1..]);
    }
  }

  // ---------------------------------------------------------------------------
  // Sign-out is total
  // ---------------------------------------------------------------------------

  /** What each command signs out, read off the command and the tables alone. */
  predicate SignsOut(c: Config, s: State, cmd: Command, f: FamilyId) {
    match cmd
    case Login(u, _, _, _, l) => MayLogin(s, u) && f in l[..Excess(c, |l|)]
    case Refresh(presented, _, _) =>
      presented.Some? && presented.value in s.tokens && s.tokens[presented.value].revoked
          && s.tokens[presented.value].family == f
    case Logout(u, presented) =>
      presented.Some? && presented.value in s.tokens && s.tokens[presented.value].user == u
          && s.tokens[presented.value].family == f
    case RevokeSession(u, g) => f == g && f in ActiveFamilies(s.tokens, u, s.now)
    case ChangePassword(u) => f in FamiliesOf(s.tokens, u)
    case ResetPassword(u) => f in FamiliesOf(s.tokens, u)
    case SetSuspended(_, _) => false
    case Tick(_) => false
  }

  lemma SignedOutAfter(c: Config, s: State, cmd: Command)
    requires Sound(c) && Inv(c, s) && Enabled(s, cmd)
    ensures forall f :: f in Execute(c, s, cmd).0.signedOut <==> f in s.signedOut || SignsOut(c, s, cmd, f)
    ensures forall j | j in s.issued ::
              j in Execute(c, s, cmd).0.issued && Execute(c, s, cmd).0.issued[j] == s.issued[j]
  {
    if cmd.Login? {
      var evicted := cmd.listing[..Excess(c, |cmd.listing|)];
      ListedFamiliesExist(s, cmd.user, cmd.listing);
      assert forall f | f in evicted :: f in cmd.listing;
      SignOutAllEffect(c, s, evicted);
      SignOutAllKeepsInv(c, s, evicted);
    }
  }

  lemma {:induction false} SignedOutForGood(c: Config, s: State, run: seq<Command>)
    requires Sound(c) && Inv(c, s) && Valid(c, s, run)
    ensures s.signedOut <= Exec(c, s, run).signedOut
    ensures forall j | j in s.issued :: j in Exec(c, s, run).issued && Exec(c, s, run).issued[j] == s.issued[j]
    decreases |run|
  {
    if run != [] {
      SignedOutAfter(c, s, run[0]);
      StepKeepsInv(c, s, run[0]);
      SignedOutForGood(c, Execute(c, s, run[0]).0, run[1..]);
    }
  }

  /**
   An access token that has not reached its expiry is accepted if and only if its user
   may log in and its family has not been signed out: nothing signed out gets in, and
   nothing else is shut out.
   */
  lemma AcceptedIffNotSignedOut(c: Config, run: seq<Command>, j: Jti)
    requires Sound(c) && Valid(c, Init, run)
    requires j in Exec(c, Init, run).issued
    requires var s := Exec(c, Init, run); s.now < s.issued[j].exp * SECOND
    ensures var s := Exec(c, Init, run);
            Authenticates(c, s, j) <==>
              var a := s.issued[j];
              a.user in s.users && s.users[a.user] == false && a.family !in s.signedOut
  {
    RunKeepsInv(c, Init, run);
    var s := Exec(c, Init, run);
    assert DenialOk(c, s, j);
  }

  lemma SignedOutIsRejected(c: Config, s: State, j: Jti)
    requires Inv(c, s) && j in s.issued && s.issued[j].family in s.signedOut
    ensures !Authenticates(c, s, j)
  {
    assert DenialOk(c, s, j);
  }

  lemma SignOutIsTotalFrom(c: Config, s: State, s1: State, cmd: Command, f: FamilyId, after: seq<Command>, j: Jti)
    requires Sound(c) && Inv(c, s) && Enabled(s, cmd) && SignsOut(c, s, cmd, f)
    requires s1 == Execute(c, s, cmd).0 && Valid(c, s1, after)
    requires j in s1.issued && s1.issued[j].family == f
    ensures j in Exec(c, s1, after).issued
    ensures !Authenticates(c, Exec(c, s1, after), j)
  {
    SignedOutAfter(c, s, cmd);
    StepKeepsInv(c, s, cmd);
    SignedOutForGood(c, s1, after);
    RunKeepsInv(c, s1, after);
    SignedOutIsRejected(c, Exec(c, s1, after), j);
  }

  /**
   Sign-out is total: after any command that signs a family out, every access token ever
   returned for it is rejected up to its expiry, whatever is executed in between.
   */
  lemma SignOutIsTotal(c: Config, before: seq<Command>, s: State, cmd: Command, f: FamilyId, after: seq<Command>,
      j: Jti)
    requires Sound(c) && Valid(c, Init, before) && s == Exec(c, Init, before)
    requires Enabled(s, cmd) && SignsOut(c, s, cmd, f) && Valid(c, Execute(c, s, cmd).0, after)
    requires j in Execute(c, s, cmd).0.issued && Execute(c, s, cmd).0.issued[j].family == f
    ensures j in Exec(c, Execute(c, s, cmd).0, after).issued
    ensures !Authenticates(c, Exec(c, Execute(c, s, cmd).0, after), j)
  {
    RunKeepsInv(c, Init, before);
    SignOutIsTotalFrom(c, s, Execute(c, s, cmd).0, cmd, f, after, j);
  }

  /**
   Dead families stay dead: once signed out, a family gains no row and none of its rows
   is ever live again, under any further sequence of commands.
   */
  lemma {:induction false} SignedOutStaysDead(c: Config, s: State, run: seq<Command>, f: FamilyId)
    requires Sound(c) && Inv(c, s) && Valid(c, s, run) && f in s.signedOut
    ensures var s' := Exec(c, s, run);
            forall t | t in s'.tokens && s'.tokens[t].family == f ::
              t in s.tokens && s.tokens[t].family == f && s'.tokens[t].revoked
    decreases |run|
  {
    if run != [] {
      var s1 := Execute(c, s, run[0]).0;
      StepKeepsInv(c, s, run[0]);
      SignedOutAfter(c, s, run[0]);
      NoNewRow(c, s, run[0], f);
      SignedOutStaysDead(c, s1, run[1..], f);
    }
  }

  lemma NoNewRow(c: Config, s: State, cmd: Command, f: FamilyId)
    requires Enabled(s, cmd) && f in s.signedOut
    requires forall t | t in s.tokens && s.tokens[t].family == f :: s.tokens[t].revoked
    ensures var s' := Execute(c, s, cmd).0;
            forall t | t in s'.tokens && s'.tokens[t].family == f :: t in s.tokens && s.tokens[t].family == f
  {
    if cmd.Login? {
      SignOutAllEffect(c, s, cmd.listing[..Excess(c, |cmd.listing|)]);
    }
  }
}
