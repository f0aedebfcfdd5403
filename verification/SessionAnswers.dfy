/**
 What each session command answers and leaves behind, read off the rows alone, and that a
 session which nobody has signed out can always be continued.
 */
module SessionAnswers {
  import opened Common
  import opened Sequences
  import opened Clock
  import opened Sessions
  import opened SessionRuns

  /** The user exists and is not suspended. */
  predicate Usable(s: State, u: UserId) { u in s.users && s.users[u] == false }

  /** after is before with exactly the rows in question revoked as well. */
  predicate RevokesExactly(before: map<TokenId, Token>, after: map<TokenId, Token>, rows: set<TokenId>) {
    && after.Keys == before.Keys
    && forall t | t in before ::
         after[t] == before[t].(revoked := before[t].revoked || t in rows)
  }

  /**
   A refresh is served if and only if the presented token is stored, not revoked, not past its
   expiry, and its user may log in. Then that row is revoked, its successor is a live row of
   the same user and family, and both new tokens last their full time from now.
   */
  lemma RefreshServedIff(c: Config, s: State, presented: Option<TokenId>, id: TokenId, jti: Jti)
    requires Enabled(s, Refresh(presented, id, jti))
    ensures var (s', answer) := Execute(c, s, Refresh(presented, id, jti));
            && (answer == Issued(jti) <==>
                  && presented.Some? && presented.value in s.tokens
                  && var t := s.tokens[presented.value];
                     !t.revoked && s.now <= t.expiresAt && Usable(s, t.user))
            && (answer != Issued(jti) ==> answer == Unauthorized)
            && (answer == Issued(jti) ==>
                  var t := s.tokens[presented.value];
                  && s'.tokens.Keys == s.tokens.Keys + {id} && s'.issued.Keys == s.issued.Keys + {jti}
                  && RevokesExactly(s.tokens, s'.tokens - {id}, {presented.value})
                  && s'.tokens[id] == Token(t.user, t.family, jti, s.now + c.refreshTtl, false, s.now)
                  && s'.issued == s.issued[jti := Access(t.user, t.family, Unix(s.now + c.accessTtl))]
                  && s'.cache == s.cache && s'.signedOut == s.signedOut)
  {
    var s' := Execute(c, s, Refresh(presented, id, jti)).0;
    assert presented.Some? && presented.value in s.tokens ==> (s'.tokens - {id}).Keys == s.tokens.Keys;
  }

  /** A refusal changes nothing, except that a token used again costs its whole family. */
  lemma RefreshRefused(c: Config, s: State, presented: Option<TokenId>, id: TokenId, jti: Jti)
    requires Enabled(s, Refresh(presented, id, jti))
    requires Execute(c, s, Refresh(presented, id, jti)).1 != Issued(jti)
    ensures var s' := Execute(c, s, Refresh(presented, id, jti)).0;
            if presented.Some? && presented.value in s.tokens && s.tokens[presented.value].revoked then
              var f := s.tokens[presented.value].family;
              && RevokesExactly(s.tokens, s'.tokens, set t | t in s.tokens && s.tokens[t].family == f)
              && s'.signedOut == s.signedOut + {f} && s'.issued == s.issued
            else s' == s
  {
  }

  /** What a login with accepted credentials signs out: the first of the listed sessions, so
      that one fewer is left than the cap allows. */
  function Evicted(c: Config, l: seq<FamilyId>): seq<FamilyId> {
    if 0 < c.maxSessions <= |l| then l[..|l| - (c.maxSessions - 1)] else []
  }

  function RowsOf(tokens: map<TokenId, Token>, families: seq<FamilyId>): set<TokenId> {
    set t | t in tokens && tokens[t].family in families
  }

  lemma EvictionRevokes(c: Config, s: State, l: seq<FamilyId>)
    ensures var s' := SignOutAll(c, s, l);
            && RevokesExactly(s.tokens, s'.tokens, RowsOf(s.tokens, l))
            && s'.signedOut == s.signedOut + Elements(l) && s'.issued == s.issued
            && s'.now == s.now && s'.users == s.users
  {
    SignOutAllEffect(c, s, l);
  }

  /** It is served if and only if the user exists and is not suspended. */
  lemma LoginServedIff(c: Config, s: State, cmd: Command)
    requires Enabled(s, cmd) && cmd.Login?
    ensures var (s', answer) := Execute(c, s, cmd);
            && (answer == Issued(cmd.jti) <==> Usable(s, cmd.user))
            && (answer != Issued(cmd.jti) ==> answer == Unauthorized && s' == s)
            && (answer == Issued(cmd.jti) ==>
                  && s'.tokens.Keys == s.tokens.Keys + {cmd.id}
                  && RevokesExactly(s.tokens, s'.tokens - {cmd.id}, RowsOf(s.tokens, Evicted(c, cmd.listing)))
                  && s'.tokens[cmd.id] == Token(cmd.user, cmd.family, cmd.jti, s.now + c.refreshTtl, false, s.now)
                  && s'.issued == s.issued[cmd.jti := Access(cmd.user, cmd.family, Unix(s.now + c.accessTtl))]
                  && s'.signedOut == s.signedOut + Elements(Evicted(c, cmd.listing)))
  {
    var evicted := Evicted(c, cmd.listing);
    assert cmd.listing[..Excess(c, |cmd.listing|)] == evicted;
    EvictionRevokes(c, s, evicted);
    var s1 := SignOutAll(c, s, evicted);
    assert s1.tokens[cmd.id := Token(cmd.user, cmd.family, cmd.jti, s.now + c.refreshTtl, false, s.now)] - {cmd.id}
        == s1.tokens;
  }

  /** A logout revokes the whole family of the caller's own token, and without one does nothing. */
  lemma LogoutAnswer(c: Config, s: State, u: UserId, presented: Option<TokenId>)
    ensures var (s', answer) := Execute(c, s, Logout(u, presented));
            && answer == Completed
            && (if presented.Some? && presented.value in s.tokens && s.tokens[presented.value].user == u then
                  var f := s.tokens[presented.value].family;
                  && RevokesExactly(s.tokens, s'.tokens, set t | t in s.tokens && s.tokens[t].family == f)
                  && s'.signedOut == s.signedOut + {f}
                else s' == s)
  {
  }

  /** A session can be revoked if and only if the caller has a live, unexpired token in it. */
  lemma RevokeSessionIff(c: Config, s: State, u: UserId, f: FamilyId)
    ensures var (s', answer) := Execute(c, s, RevokeSession(u, f));
            && (answer == Completed <==>
                  exists t :: t in s.tokens && s.tokens[t].user == u && s.tokens[t].family == f
                              && !s.tokens[t].revoked && s.now < s.tokens[t].expiresAt)
            && (answer != Completed ==> answer == NoSuchSession && s' == s)
            && (answer == Completed ==>
                  && RevokesExactly(s.tokens, s'.tokens, set t | t in s.tokens && s.tokens[t].family == f)
                  && s'.signedOut == s.signedOut + {f})
  {
    if t :| t in s.tokens && s.tokens[t].user == u && s.tokens[t].family == f
            && !s.tokens[t].revoked && s.now < s.tokens[t].expiresAt {
      assert IsActive(s.tokens, t, u, s.now);
    }
    if f in ActiveFamilies(s.tokens, u, s.now) {
      var t :| t in s.tokens && IsActive(s.tokens, t, u, s.now) && s.tokens[t].family == f;
    }
  }

  /** A password change or reset revokes every row of the user and nobody else's. */
  lemma PasswordAnswer(c: Config, s: State, u: UserId, cmd: Command)
    requires cmd == ChangePassword(u) || cmd == ResetPassword(u)
    ensures var (s', answer) := Execute(c, s, cmd);
            && answer == Completed
            && RevokesExactly(s.tokens, s'.tokens, set t | t in s.tokens && s.tokens[t].user == u)
            && s'.signedOut == s.signedOut + set t | t in s.tokens && s.tokens[t].user == u :: s.tokens[t].family
  {
  }

  // ---------------------------------------------------------------------------
  // Sessions go on until they are signed out
  // ---------------------------------------------------------------------------

  /** A refresh in the run exchanged the token. */
  predicate ExchangedIn(c: Config, s: State, run: seq<Command>, p: TokenId)
    requires Valid(c, s, run)
    decreases |run|
  {
    run != [] &&
    ((run[0].Refresh? && run[0].presented == Some(p) && Execute(c, s, run[0]).1.Issued?)
     || ExchangedIn(c, Execute(c, s, run[0]).0, run[1..], p))
  }

  /** The row p of s in s': as it was, but revoked with its family or when exchanged. */
  predicate RowKept(s: State, s': State, p: TokenId, exchanged: bool)
    requires p in s.tokens
  {
    && p in s'.tokens && s'.tokens[p] == s.tokens[p].(revoked := s'.tokens[p].revoked)
    && s.signedOut <= s'.signedOut
    && (s'.tokens[p].revoked <==> s.tokens[p].revoked || s.tokens[p].family in s'.signedOut || exchanged)
  }

  lemma RowAfterLogin(c: Config, s: State, cmd: Command, p: TokenId)
    requires Sound(c) && Inv(c, s) && Enabled(s, cmd) && p in s.tokens && cmd.Login?
    ensures RowKept(s, Execute(c, s, cmd).0, p, false)
  {
    LoginServedIff(c, s, cmd);
    var s' := Execute(c, s, cmd).0;
    assert Usable(s, cmd.user) ==> (s'.tokens - {cmd.id})[p] == s'.tokens[p];
  }

  lemma RowAfterRefresh(c: Config, s: State, cmd: Command, p: TokenId)
    requires Sound(c) && Inv(c, s) && Enabled(s, cmd) && p in s.tokens && cmd.Refresh?
    ensures var (s', answer) := Execute(c, s, cmd);
            RowKept(s, s', p, cmd.presented == Some(p) && answer.Issued?)
  {
    RefreshServedIff(c, s, cmd.presented, cmd.id, cmd.jti);
    var (s', answer) := Execute(c, s, cmd);
    if answer == Issued(cmd.jti) {
      assert (s'.tokens - {cmd.id})[p] == s'.tokens[p];
    } else {
      RefreshRefused(c, s, cmd.presented, cmd.id, cmd.jti);
    }
  }

  /** A row changes only by revocation, and is revoked only by its exchange or with its family. */
  lemma RowAfter(c: Config, s: State, cmd: Command, p: TokenId)
    requires Sound(c) && Inv(c, s) && Enabled(s, cmd) && p in s.tokens
    ensures var (s', answer) := Execute(c, s, cmd);
            RowKept(s, s', p, cmd.Refresh? && cmd.presented == Some(p) && answer.Issued?)
  {
    assert s.tokens[p].family in s.signedOut ==> s.tokens[p].revoked;
    match cmd
    case Login(_, _, _, _, _) => RowAfterLogin(c, s, cmd, p);
    case Refresh(_, _, _) => RowAfterRefresh(c, s, cmd, p);
    case Logout(u, presented) => LogoutAnswer(c, s, u, presented);
    case RevokeSession(u, f) => RevokeSessionIff(c, s, u, f);
    case ChangePassword(u) => UserRows(c, s, u, cmd, p);
    case ResetPassword(u) => UserRows(c, s, u, cmd, p);
    case SetSuspended(_, _) =>
    case Tick(_) =>
  }

  lemma UserRows(c: Config, s: State, u: UserId, cmd: Command, p: TokenId)
    requires Sound(c) && Inv(c, s) && p in s.tokens && (cmd == ChangePassword(u) || cmd == ResetPassword(u))
    ensures RowKept(s, Execute(c, s, cmd).0, p, false)
  {
    PasswordAnswer(c, s, u, cmd);
  }

  lemma {:induction false} RevokedIff(c: Config, s: State, run: seq<Command>, p: TokenId)
    requires Sound(c) && Inv(c, s) && Valid(c, s, run) && p in s.tokens
    ensures RowKept(s, Exec(c, s, run), p, ExchangedIn(c, s, run, p))
    decreases |run|
  {
    if run == [] {
      assert s.tokens[p].family in s.signedOut ==> s.tokens[p].revoked;
    } else {
      RowAfter(c, s, run[0], p);
      StepKeepsInv(c, s, run[0]);
      RevokedIff(c, Execute(c, s, run[0]).0, run[1..], p);
    }
  }

  /**
   Sessions go on until they are signed out: at any point of any run, a refresh token handed
   out before, by a login or a refresh, can be exchanged until it expires, if and only if it
   has not been exchanged already, its session has not been signed out, and its user may log in.
   */
  lemma SessionGoesOn(c: Config, before: seq<Command>, cmd: Command, run: seq<Command>, id: TokenId, jti: Jti)
    requires Sound(c) && Valid(c, Init, before) && Enabled(Exec(c, Init, before), cmd) && (cmd.Login? || cmd.Refresh?)
    requires Execute(c, Exec(c, Init, before), cmd).1.Issued?
    requires Valid(c, Execute(c, Exec(c, Init, before), cmd).0, run)
    requires Enabled(Exec(c, Execute(c, Exec(c, Init, before), cmd).0, run), Refresh(Some(cmd.id), id, jti))
    ensures var s0 := Exec(c, Init, before);
            var s1 := Execute(c, s0, cmd).0;
            var s2 := Exec(c, s1, run);
            && cmd.id in s1.tokens && s1.tokens[cmd.id].expiresAt == s0.now + c.refreshTtl
            && var t := s1.tokens[cmd.id];
               Execute(c, s2, Refresh(Some(cmd.id), id, jti)).1 == Issued(jti) <==>
                 && !ExchangedIn(c, s1, run, cmd.id) && t.family !in s2.signedOut
                 && s2.now <= s0.now + c.refreshTtl && Usable(s2, t.user)
  {
    var s0 := Exec(c, Init, before);
    RunKeepsInv(c, Init, before);
    if cmd.Login? {
      LoginServedIff(c, s0, cmd);
    } else {
      RefreshServedIff(c, s0, cmd.presented, cmd.id, cmd.jti);
    }
    StepKeepsInv(c, s0, cmd);
    var s1 := Execute(c, s0, cmd).0;
    RevokedIff(c, s1, run, cmd.id);
    RefreshServedIff(c, Exec(c, s1, run), Some(cmd.id), id, jti);
  }
}
