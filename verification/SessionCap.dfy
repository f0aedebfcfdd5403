/** The per-user session cap over whole serial runs. */
module SessionCap {
  import opened Sequences
  import opened Sessions
  import opened SessionRuns

  function Active(s: State, u: UserId): set<FamilyId> { ActiveFamilies(s.tokens, u, s.now) }

  /** Revoking families removes them from everybody's active set and nothing else. */
  lemma ActiveAfterRevoking(tokens: map<TokenId, Token>, l: seq<FamilyId>, u: UserId, now: int)
    ensures ActiveFamilies(RowsAfter(tokens, l), u, now) == ActiveFamilies(tokens, u, now) - Elements(l)
  {
    var tokens' := RowsAfter(tokens, l);
    forall t | t in tokens
      ensures IsActive(tokens', t, u, now) <==> IsActive(tokens, t, u, now) && tokens[t].family !in l
      ensures tokens'[t].family == tokens[t].family
    {
    }
    forall f | f in ActiveFamilies(tokens, u, now) && f !in l ensures f in ActiveFamilies(tokens', u, now) {
      var t :| t in tokens && IsActive(tokens, t, u, now) && tokens[t].family == f;
      assert t in tokens' && IsActive(tokens', t, u, now) && tokens'[t].family == f;
    }
  }

  /** A new live row adds its family to its user's active set. */
  lemma ActiveAfterIssue(tokens: map<TokenId, Token>, id: TokenId, row: Token, u: UserId, now: int)
    requires id !in tokens && !row.revoked && now < row.expiresAt
    ensures ActiveFamilies(tokens[id := row], u, now) ==
              ActiveFamilies(tokens, u, now) + if u == row.user then {row.family} else {}
  {
    var tokens' := tokens[id := row];
    assert IsActive(tokens', id, row.user, now);
    forall f | f in ActiveFamilies(tokens, u, now) ensures f in ActiveFamilies(tokens', u, now) {
      var t :| t in tokens && IsActive(tokens, t, u, now) && tokens[t].family == f;
      assert t in tokens' && IsActive(tokens', t, u, now);
    }
    forall f | f in ActiveFamilies(tokens', u, now)
      ensures f in ActiveFamilies(tokens, u, now) || (u == row.user && f == row.family)
    {
      var t :| t in tokens' && IsActive(tokens', t, u, now) && tokens'[t].family == f;
      assert t != id ==> t in tokens && IsActive(tokens, t, u, now);
    }
  }

  /** What a login leaves active, for its own user and for anybody else. */
  lemma ActiveAfterLogin(c: Config, s: State, cmd: Command, u: UserId)
    requires Sound(c) && Enabled(s, cmd) && cmd.Login? && MayLogin(s, cmd.user)
    ensures var evicted := cmd.listing[..Excess(c, |cmd.listing|)];
            Active(Execute(c, s, cmd).0, u) == Active(s, u) - Elements(evicted) + if u == cmd.user
                then {cmd.family} else {}
  {
    var evicted := cmd.listing[..Excess(c, |cmd.listing|)];
    SignOutAllEffect(c, s, evicted);
    ActiveAfterRevoking(s.tokens, evicted, u, s.now);
    var row := Token(cmd.user, cmd.family, cmd.jti, s.now + c.refreshTtl, false, s.now);
    ActiveAfterIssue(SignOutAll(c, s, evicted).tokens, cmd.id, row, u, s.now);
  }

  /**
   A login under a positive cap evicts exactly the oldest sessions, as many as needed:
   the survivors are the rest of the listing plus the new session, they number at most
   the cap, and no survivor's newest live token is older than an evicted one's.
   */
  lemma LoginEvictsOldest(c: Config, s: State, cmd: Command)
    requires Sound(c) && Enabled(s, cmd) && cmd.Login? && MayLogin(s, cmd.user)
    requires 1 <= c.maxSessions
    ensures var s', l, k := Execute(c, s, cmd).0, cmd.listing, Excess(c, |cmd.listing|);
            && Active(s', cmd.user) == Elements(l[k..]) + {cmd.family}
            && |Active(s', cmd.user)| == |l| - k + 1 <= c.maxSessions
            && (k > 0 ==> |Active(s', cmd.user)| == c.maxSessions)
            && (forall i, j | 0 <= i < k <= j < |l| ::
                  Latest(s.tokens, cmd.user, s.now, l[i]) <= Latest(s.tokens, cmd.user, s.now, l[j]))
            && (forall u | u != cmd.user :: Active(s', u) <= Active(s, u))
  {
    var l, k := cmd.listing, Excess(c, |cmd.listing|);
    forall u | u != cmd.user ensures Active(Execute(c, s, cmd).0, u) <= Active(s, u) {
      ActiveAfterLogin(c, s, cmd, u);
    }
    ActiveAfterLogin(c, s, cmd, cmd.user);
    DistinctSplit(l, k);
    assert !HasFamily(s, cmd.family);
    assert cmd.family !in Active(s, cmd.user);
  }

  /** The instant at which IsExpired still admits a token that the SQL filter has dropped. */
  predicate AtExpiry(s: State, cmd: Command) {
    cmd.Refresh? && Rotates(s, cmd.presented) && s.now == s.tokens[cmd.presented.value].expiresAt
  }

  /**
   A successful refresh leaves every active set as it is if and only if it does not come
   at the exact expiry instant of its token; at that instant it revives one session.
   */
  lemma RefreshKeepsActiveIff(c: Config, s: State, cmd: Command)
    requires Sound(c) && Inv(c, s) && Enabled(s, cmd) && cmd.Refresh? && Rotates(s, cmd.presented)
    ensures var s', t := Execute(c, s, cmd).0, s.tokens[cmd.presented.value];
            && (forall u | u != t.user :: Active(s', u) == Active(s, u))
            && Active(s', t.user) == Active(s, t.user) + {t.family}
            && (t.family in Active(s, t.user) <==> !AtExpiry(s, cmd))
            && (Active(s', t.user) == Active(s, t.user) <==> !AtExpiry(s, cmd))
  {
    var p := cmd.presented.value;
    var t := s.tokens[p];
    var revoked := s.tokens[p := t.(revoked := true)];
    var row := Token(t.user, t.family, cmd.jti, s.now + c.refreshTtl, false, s.now);
    forall u ensures Active(Execute(c, s, cmd).0, u) == Active(s, u) + if u == t.user then {t.family} else {} {
      ActiveAfterIssue(revoked, cmd.id, row, u, s.now);
      OthersUnaffected(s, p, u);
    }
    if !AtExpiry(s, cmd) {
      assert IsActive(s.tokens, p, t.user, s.now);
    } else {
      assert forall v | v in s.tokens && s.tokens[v].family == t.family && !s.tokens[v].revoked :: v == p;
      assert !IsActive(s.tokens, p, t.user, s.now);
    }
  }

  lemma OthersUnaffected(s: State, p: TokenId, u: UserId)
    requires RowsOk(s) && p in s.tokens
    ensures var t := s.tokens[p];
            var extra := if u == t.user then {t.family} else {};
            ActiveFamilies(s.tokens[p := t.(revoked := true)], u, s.now) + extra == Active(s, u) + extra
  {
    var t := s.tokens[p];
    var tokens' := s.tokens[p := t.(revoked := true)];
    forall f | f != t.family || u != t.user
      ensures f in Active(s, u) <==> f in ActiveFamilies(tokens', u, s.now)
    {
      if f in Active(s, u) {
        var v :| v in s.tokens && IsActive(s.tokens, v, u, s.now) && s.tokens[v].family == f;
        assert v in tokens' && IsActive(tokens', v, u, s.now);
      }
      if f in ActiveFamilies(tokens', u, s.now) {
        var v :| v in tokens' && IsActive(tokens', v, u, s.now) && tokens'[v].family == f;
        assert v in s.tokens && IsActive(s.tokens, v, u, s.now);
      }
    }
  }

  predicate WithinCap(c: Config, s: State, u: UserId) { |Active(s, u)| <= c.maxSessions }

  /** Commands other than logins and refreshes only ever end sessions. */
  lemma OnlyEnds(c: Config, s: State, cmd: Command, u: UserId)
    requires Enabled(s, cmd) && !cmd.Login? && !(cmd.Refresh? && Rotates(s, cmd.presented))
    ensures Active(Execute(c, s, cmd).0, u) <= Active(s, u)
  {
  }

  /** u's sessions are at the cap, and one more comes back at its token's expiry instant. */
  predicate Overfills(c: Config, s: State, cmd: Command, u: UserId) {
    AtExpiry(s, cmd) && s.tokens[cmd.presented.value].user == u && |Active(s, u)| == c.maxSessions
  }

  /** A command breaks the cap of a user exactly when it overfills. */
  lemma StepKeepsCapIff(c: Config, s: State, cmd: Command, u: UserId)
    requires Sound(c) && Inv(c, s) && Enabled(s, cmd) && 1 <= c.maxSessions && WithinCap(c, s, u)
    ensures WithinCap(c, Execute(c, s, cmd).0, u) <==> !Overfills(c, s, cmd, u)
  {
    if cmd.Refresh? && Rotates(s, cmd.presented) {
      RefreshKeepsActiveIff(c, s, cmd);
    } else if cmd.Login? {
      if MayLogin(s, cmd.user) {
        LoginEvictsOldest(c, s, cmd);
        if u != cmd.user { SubsetSmaller(Active(Execute(c, s, cmd).0, u), Active(s, u)); }
      }
    } else {
      OnlyEnds(c, s, cmd, u);
      SubsetSmaller(Active(Execute(c, s, cmd).0, u), Active(s, u));
    }
  }

  ghost predicate CappedThroughout(c: Config, s: State, run: seq<Command>, u: UserId)
    requires Valid(c, s, run)
    decreases |run|
  {
    WithinCap(c, s, u) && (run == [] || CappedThroughout(c, Execute(c, s, run[0]).0, run[1..], u))
  }

  ghost predicate NeverOverfills(c: Config, s: State, run: seq<Command>, u: UserId)
    requires Valid(c, s, run)
    decreases |run|
  {
    run == [] || (!Overfills(c, s, run[0], u) && NeverOverfills(c, Execute(c, s, run[0]).0, run[1..], u))
  }

  lemma {:induction false} RunKeepsCapIff(c: Config, s: State, run: seq<Command>, u: UserId)
    requires Sound(c) && Inv(c, s) && Valid(c, s, run) && 1 <= c.maxSessions && WithinCap(c, s, u)
    ensures CappedThroughout(c, s, run, u) ==> NeverOverfills(c, s, run, u)
    ensures NeverOverfills(c, s, run, u) ==> CappedThroughout(c, s, run, u)
    decreases |run|
  {
    if run != [] {
      var s' := Execute(c, s, run[0]).0;
      StepKeepsCapIff(c, s, run[0], u);
      StepKeepsInv(c, s, run[0]);
      if WithinCap(c, s', u) {
        RunKeepsCapIff(c, s', run[1..], u);
      } else {
        assert !CappedThroughout(c, s', run[1..], u);
      }
    }
  }

  /** A user's active sessions stay within the cap throughout a run exactly when no refresh
      in it overfills. */
  lemma CapHoldsIff(c: Config, run: seq<Command>, u: UserId)
    requires Sound(c) && 1 <= c.maxSessions && Valid(c, Init, run)
    ensures CappedThroughout(c, Init, run, u) <==> NeverOverfills(c, Init, run, u)
  {
    assert Active(Init, u) == {};
    RunKeepsCapIff(c, Init, run, u);
  }

  // ---------------------------------------------------------------------------
  // The query the cap relies on has an answer
  // ---------------------------------------------------------------------------

  /** Every table has a listing, so logins are never blocked by the model. */
  lemma ListingExists(tokens: map<TokenId, Token>, u: UserId, now: int) returns (l: seq<FamilyId>)
    ensures IsListing(tokens, u, now, l)
  {
    l := Sorted(tokens, u, now, ActiveFamilies(tokens, u, now));
  }

  lemma {:induction false} Sorted(tokens: map<TokenId, Token>, u: UserId, now: int, families: set<FamilyId>)
    returns (l: seq<FamilyId>)
    ensures Distinct(l) && Elements(l) == families
    ensures forall i, j | 0 <= i < j < |l| :: Latest(tokens, u, now, l[i]) <= Latest(tokens, u, now, l[j])
    decreases families
  {
    if families == {} {
      l := [];
    } else {
      var f :| f in families;
      var last := Newest(tokens, u, now, families, f);
      var front := Sorted(tokens, u, now, families - {last});
      l := front + [last];
      ElementsSnoc(front, last);
      forall i | 0 <= i < |front| ensures front[i] in families - {last} {
        assert front[i] in Elements(front);
      }
    }
  }

  lemma {:induction false} Newest(tokens: map<TokenId, Token>, u: UserId, now: int, families: set<FamilyId>,
      f: FamilyId)
    returns (n: FamilyId)
    requires f in families
    ensures n in families && forall g | g in families :: Latest(tokens, u, now, g) <= Latest(tokens, u, now, n)
    decreases families
  {
    if g :| g in families && Latest(tokens, u, now, f) < Latest(tokens, u, now, g) {
      n := Newest(tokens, u, now, families - {f}, g);
    } else {
      n := f;
    }
  }
}
