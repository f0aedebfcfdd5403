/**
 Sign-outs and password changes under concurrency: each puts the access tokens it finds on
 the denylist and then revokes the refresh tokens, and refreshes and logins may run between
 the two statements (internal/modules/auth/application/command/refresh.go,
 change_password.go, logout.go and denylist.go).
 */
module SignOutProtocol {
  import opened Sequences
  import opened RefreshProtocol

  /** The step puts every access token the family has on the denylist. */
  predicate Covers(s: State, e: Step, f: FamilyId)
    requires Enabled(s, e)
  {
    match e
    case DenyFamily(g) => g == f
    case PunishDeny(th) => s.tokens[s.threads[th].token].family == f
    case DenyUser(u) => exists t :: t in OfFamily(s, f) && s.tokens[t].user == u
    case _ => false
  }

  /** The step gives the family a new access token. */
  predicate Mints(s: State, e: Step, f: FamilyId)
    requires Enabled(s, e)
  {
    match e
    case Login(_, _, g) => g == f
    case Save(th, _) => s.tokens[s.threads[th].token].family == f
    case _ => false
  }

  lemma MintLeavesOneOut(s: State, e: Step, f: FamilyId)
    requires Inv(s) && Enabled(s, e) && Mints(s, e, f)
    ensures !AllDenied(Apply(s, e), f)
  {
    assert e.id in OfFamily(Apply(s, e), f) && e.id !in Apply(s, e).denied;
  }

  lemma CoverDeniesAll(s: State, e: Step, f: FamilyId)
    requires Inv(s) && Enabled(s, e) && Covers(s, e, f)
    ensures AllDenied(Apply(s, e), f)
  {
    assert Apply(s, e).tokens == s.tokens;
    if e.DenyUser? {
      var t :| t in OfFamily(s, f) && s.tokens[t].user == e.user;
      assert forall o | o in OfFamily(s, f) :: s.tokens[o].user == e.user;
    }
  }

  lemma DeniesOthers(s: State, e: Step, f: FamilyId, t: TokenId)
    requires Enabled(s, e) && !Covers(s, e, f) && t in OfFamily(s, f)
    ensures t in Apply(s, e).denied <==> t in s.denied
  {
    match e
    case DenyUser(u) => assert s.tokens[t].user != u;
    case _ =>
  }

  /** A step that neither covers the family nor adds to it denies none of its access tokens. */
  lemma DenialUnmoved(s: State, e: Step, f: FamilyId)
    requires Enabled(s, e) && !Covers(s, e, f) && !Mints(s, e, f)
    ensures AllDenied(Apply(s, e), f) <==> AllDenied(s, f)
  {
    StepExtends(s, e);
    assert OfFamily(Apply(s, e), f) == OfFamily(s, f);
    forall t | t in OfFamily(s, f) ensures t in Apply(s, e).denied <==> t in s.denied {
      DeniesOthers(s, e, f, t);
    }
  }

  /** Some step of the run covers the family. */
  predicate CoveredIn(s: State, run: seq<Step>, f: FamilyId)
    requires Valid(s, run)
    decreases |run|
  {
    run != [] && (Covers(s, run[0], f) || CoveredIn(Apply(s, run[0]), run[1..], f))
  }

  /** Every access token the run gives the family is denied again later in the run. */
  predicate EveryMintDenied(s: State, run: seq<Step>, f: FamilyId)
    requires Valid(s, run)
    decreases |run|
  {
    run != [] ==>
      var s' := Apply(s, run[0]);
      (Mints(s, run[0], f) ==> CoveredIn(s', run[1..], f)) && EveryMintDenied(s', run[1..], f)
  }

  /**
   Exactly when a run ends with every access token of a family denied: they were at its start
   or some step denied them, and no token was minted after the last denial.
   */
  lemma {:induction false} DeniedAfterIff(s: State, run: seq<Step>, f: FamilyId)
    requires Inv(s) && Valid(s, run)
    ensures AllDenied(Exec(s, run), f) <==>
              (AllDenied(s, f) || CoveredIn(s, run, f)) && EveryMintDenied(s, run, f)
    decreases |run|
  {
    if run != [] {
      var e := run[0];
      StepKeepsInv(s, e);
      DeniedAfterIff(Apply(s, e), run[1..], f);
      if Mints(s, e, f) {
        MintLeavesOneOut(s, e, f);
      } else if Covers(s, e, f) {
        CoverDeniesAll(s, e, f);
      } else {
        DenialUnmoved(s, e, f);
      }
    }
  }

  lemma {:induction false} DeadStaysDenied(s: State, run: seq<Step>, f: FamilyId)
    requires Dead(s, f) && AllDenied(s, f) && Valid(s, run)
    ensures AllDenied(Exec(s, run), f)
    decreases |run|
  {
    if run != [] {
      var e, s' := run[0], Apply(s, run[0]);
      DeadMeans(s, f);
      DeadStep(s, e, f);
      assert e.Save? ==> !Flying(s, e.th, f);
      forall t | t in OfFamily(s', f) ensures t in s'.denied { assert t in OfFamily(s, f); }
      DeadStaysDenied(s', run[1..], f);
    }
  }

  /** Nothing of the family can be used: no token to refresh with, no access token accepted. */
  predicate Out(s: State, f: FamilyId) { Active(s, f) == {} && AllDenied(s, f) }

  ghost predicate OutForGood(s: State, f: FamilyId) {
    forall run | Valid(s, run) :: Out(Exec(s, run), f)
  }

  /** r is m with the family's tokens revoked. */
  lemma OutForGoodIff(m: State, r: State, f: FamilyId)
    requires Known(m, f) && Extends(m, r) && r.tokens.Keys == m.tokens.Keys
    requires r.threads == m.threads && r.denied == m.denied && Active(r, f) == {}
    ensures OutForGood(r, f) <==> AllDenied(m, f) && InFlight(m, f) == {}
  {
    assert InFlight(r, f) == InFlight(m, f) && OfFamily(r, f) == OfFamily(m, f);
    KnownStays(m, r, f);
    if InFlight(m, f) != {} {
      var th :| th in InFlight(r, f);
      var run := LateSave(r, th, f);
      assert !Out(Exec(r, run), f);
    } else if AllDenied(m, f) {
      forall run | Valid(r, run) ensures Out(Exec(r, run), f) {
        DeadRun(r, run, f);
        DeadStaysDenied(r, run, f);
      }
    } else {
      assert Valid(r, []) && !Out(Exec(r, []), f);
    }
  }

  lemma RevokedForGoodIff(m: State, f: FamilyId)
    requires Known(m, f)
    ensures OutForGood(Apply(m, RevokeFamily(f)), f) <==> AllDenied(m, f) && InFlight(m, f) == {}
  {
    StepExtends(m, RevokeFamily(f));
    OutForGoodIff(m, Apply(m, RevokeFamily(f)), f);
  }

  /**
   A sign-out denies, then revokes, and anything may run between. It is complete, so that the
   family can never be used again, if and only if every token saved for the family between
   the two statements is denied again before the second, and no rotation is in flight then.
   */
  lemma SignOutCompleteIff(s: State, between: seq<Step>, f: FamilyId)
    requires Inv(s) && Known(s, f) && Valid(Apply(s, DenyFamily(f)), between)
    ensures var d := Apply(s, DenyFamily(f));
            var m := Exec(d, between);
            OutForGood(Apply(m, RevokeFamily(f)), f) <==> EveryMintDenied(d, between, f) && InFlight(m, f) == {}
  {
    var d := Apply(s, DenyFamily(f));
    var m := Exec(d, between);
    StepKeepsInv(s, DenyFamily(f));
    KnownStays(s, d, f);
    DeniedAfterIff(d, between, f);
    RunExtends(d, between);
    KnownStays(d, m, f);
    RevokedForGoodIff(m, f);
  }

  // ---------------------------------------------------------------------------
  // Password changes
  // ---------------------------------------------------------------------------

  /** A login that verified one of the user's first p passwords opened the family. */
  predicate Stale(s: State, u: UserId, p: nat, f: FamilyId) {
    exists t :: t in OfFamily(s, f) && s.tokens[t].user == u && s.tokens[t].password < p
  }

  /** A login that verified one of the user's first p passwords has not saved its token yet. */
  predicate Pending(s: State, u: UserId, p: nat) {
    exists th :: th in s.logins && s.logins[th].user == u && s.logins[th].password < p
  }

  ghost predicate LockedOut(s: State, u: UserId, p: nat) {
    forall f | Stale(s, u, p, f) :: Out(s, f)
  }

  ghost predicate LockedOutForGood(s: State, u: UserId, p: nat) {
    forall run | Valid(s, run) :: LockedOut(Exec(s, run), u, p)
  }

  /** What no step undoes once the old passwords are shut out. */
  ghost predicate Shut(s: State, u: UserId, p: nat) {
    && p <= s.changes[u] && !Pending(s, u, p)
    && forall f | Stale(s, u, p, f) :: Dead(s, f) && AllDenied(s, f)
  }

  lemma NoNewStale(s: State, e: Step, u: UserId, p: nat, f: FamilyId)
    requires Shut(s, u, p) && Enabled(s, e) && Stale(Apply(s, e), u, p, f)
    ensures Stale(s, u, p, f)
  {
    var s' := Apply(s, e);
    StepExtends(s, e);
    var t :| t in OfFamily(s', f) && s'.tokens[t].user == u && s'.tokens[t].password < p;
    assert e.Login? ==> s.logins[e.th].user != u || s.logins[e.th].password >= p;
    assert (if t in s.tokens then t else s.threads[e.th].token) in OfFamily(s, f);
  }

  lemma ShutStep(s: State, e: Step, u: UserId, p: nat)
    requires Shut(s, u, p) && Enabled(s, e)
    ensures Shut(Apply(s, e), u, p)
  {
    var s' := Apply(s, e);
    forall th | th in s'.logins ensures s'.logins[th].user != u || s'.logins[th].password >= p {
      assert th in s.logins ==> s.logins[th].user != u || s.logins[th].password >= p;
    }
    forall f | Stale(s', u, p, f) ensures Dead(s', f) && AllDenied(s', f) {
      NoNewStale(s, e, u, p, f);
      DeadStep(s, e, f);
      OneStep(s, e);
      DeadStaysDenied(s, [e], f);
    }
  }

  lemma {:induction false} ShutStays(s: State, run: seq<Step>, u: UserId, p: nat)
    requires Shut(s, u, p) && Valid(s, run)
    ensures LockedOut(Exec(s, run), u, p)
    decreases |run|
  {
    if run == [] {
      forall f | Stale(s, u, p, f) ensures Out(s, f) {
        assert Dead(s, f);
      }
    } else {
      ShutStep(s, run[0], u, p);
      ShutStays(Apply(s, run[0]), run[1..], u, p);
    }
  }

  lemma StaleStays(s: State, s': State, u: UserId, p: nat, f: FamilyId)
    requires Extends(s, s') && Stale(s, u, p, f)
    ensures Stale(s', u, p, f)
  {
    var t :| t in OfFamily(s, f) && s.tokens[t].user == u && s.tokens[t].password < p;
    assert t in OfFamily(s', f);
  }

  /** A login that verified an old password before the change opens a session after it. */
  lemma LateLogin(s: State, u: UserId, p: nat)
    requires Inv(s) && Pending(s, u, p)
    ensures !LockedOutForGood(s, u, p)
  {
    var th :| th in s.logins && s.logins[th].user == u && s.logins[th].password < p;
    var id := FreshNat(s.tokens.Keys);
    var f := FreshNat(set t | t in s.tokens :: s.tokens[t].family);
    assert !Known(s, f);
    OneStep(s, Login(th, id, f));
    OpenedLate(Exec(s, [Login(th, id, f)]), id, u, p, f);
  }

  lemma OpenedLate(s: State, id: TokenId, u: UserId, p: nat, f: FamilyId)
    requires id in Active(s, f) && s.tokens[id].user == u && s.tokens[id].password < p
    ensures !LockedOut(s, u, p)
  {
    assert id in OfFamily(s, f);
    assert Stale(s, u, p, f);
    assert !Out(s, f);
  }

  /** All of a stale family's tokens are the user's. */
  lemma StaleOwned(s: State, u: UserId, p: nat, f: FamilyId)
    requires Owned(s) && Stale(s, u, p, f)
    ensures Known(s, f) && OfFamily(s, f) <= OfUser(s, u) && Active(Apply(s, RevokeUser(u)), f) == {}
  {
    var t :| t in OfFamily(s, f) && s.tokens[t].user == u && s.tokens[t].password < p;
    assert forall o | o in OfFamily(s, f) :: s.tokens[o].user == u;
  }

  /** So both statements reach them. */
  lemma StaleReached(s: State, between: seq<Step>, u: UserId, p: nat, f: FamilyId)
    requires Inv(s) && Valid(Apply(s, DenyUser(u)), between)
    requires Stale(Exec(Apply(s, DenyUser(u)), between), u, p, f)
    ensures var d := Apply(s, DenyUser(u));
            var m := Exec(d, between);
            && Known(m, f) && Active(Apply(m, RevokeUser(u)), f) == {}
            && (AllDenied(m, f) <==> EveryMintDenied(d, between, f))
  {
    var d := Apply(s, DenyUser(u));
    var m := Exec(d, between);
    StepKeepsInv(s, DenyUser(u));
    RunKeepsInv(d, between);
    StaleOwned(m, u, p, f);
    RunExtends(d, between);
    forall o | o in OfFamily(d, f) ensures o in d.denied {
      assert o in OfFamily(m, f) && o in OfUser(m, u);
    }
    DeniedAfterIff(d, between, f);
  }

  /** r is m with the user's tokens revoked. */
  lemma LockedOutIff(m: State, r: State, u: UserId, p: nat)
    requires Extends(m, r) && r.tokens.Keys == m.tokens.Keys && r.threads == m.threads && r.denied == m.denied
    requires p <= r.changes[u] && !Pending(r, u, p)
    requires forall f | Stale(m, u, p, f) :: Known(m, f) && Active(r, f) == {}
    ensures LockedOutForGood(r, u, p) <==>
              forall f | Stale(m, u, p, f) :: AllDenied(m, f) && InFlight(m, f) == {}
  {
    forall f ensures Stale(m, u, p, f) <==> Stale(r, u, p, f) && OfFamily(m, f) == OfFamily(r, f) {
      assert OfFamily(m, f) == OfFamily(r, f);
    }
    if LockedOutForGood(r, u, p) {
      forall f | Stale(m, u, p, f) ensures AllDenied(m, f) && InFlight(m, f) == {} {
        forall run | Valid(r, run) ensures Out(Exec(r, run), f) {
          RunExtends(r, run);
          StaleStays(r, Exec(r, run), u, p, f);
        }
        OutForGoodIff(m, r, f);
      }
    }
    if forall f | Stale(m, u, p, f) :: AllDenied(m, f) && InFlight(m, f) == {} {
      forall f | Stale(r, u, p, f) ensures Dead(r, f) && AllDenied(r, f) {
        assert InFlight(r, f) == InFlight(m, f);
        KnownStays(m, r, f);
      }
      forall run | Valid(r, run) ensures LockedOut(Exec(r, run), u, p) {
        ShutStays(r, run, u, p);
      }
    }
  }

  /**
   A password change stores the new hash, then denies, then revokes, and anything may run
   between. It is complete, so that no session opened with an earlier password can ever be
   used again, if and only if every token saved for such a session between the two statements
   is denied again before the second, and then no such session is being rotated and no login
   that verified an earlier password is still to save.
   */
  lemma PasswordChangeCompleteIff(s: State, between: seq<Step>, u: UserId)
    requires Inv(s) && Valid(Apply(s, DenyUser(u)), between)
    ensures var d, p := Apply(s, DenyUser(u)), s.changes[u];
            var m := Exec(d, between);
            LockedOutForGood(Apply(m, RevokeUser(u)), u, p) <==>
              && !Pending(m, u, p)
              && (forall f | Stale(m, u, p, f) :: EveryMintDenied(d, between, f) && InFlight(m, f) == {})
  {
    var d, p := Apply(s, DenyUser(u)), s.changes[u];
    var m := Exec(d, between);
    var r := Apply(m, RevokeUser(u));
    StepKeepsInv(s, DenyUser(u));
    RunKeepsInv(d, between);
    RunExtends(d, between);
    StepKeepsInv(m, RevokeUser(u));
    StepExtends(m, RevokeUser(u));
    forall f ensures Stale(m, u, p, f) <==> Stale(r, u, p, f) { assert OfFamily(m, f) == OfFamily(r, f); }
    assert Pending(r, u, p) <==> Pending(m, u, p);
    if Pending(m, u, p) {
      LateLogin(r, u, p);
    } else {
      forall f | Stale(m, u, p, f)
        ensures Known(m, f) && Active(r, f) == {} && (AllDenied(m, f) <==> EveryMintDenied(d, between, f))
      {
        StaleReached(s, between, u, p, f);
      }
      LockedOutIff(m, r, u, p);
    }
  }
}
