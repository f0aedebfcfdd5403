/**
 The access-token parser accepts a token for a leeway past its expiry. When the
 denylist covers that time too, over whole runs.
 */
module SessionLeeway {
  import opened Clock
  import opened CacheDrivers
  import opened Sessions
  import opened SessionRuns

  /** Authenticate with a parser that allows a leeway, in nanoseconds. */
  predicate AcceptsWithin(c: Config, s: State, j: Jti, leeway: nat)
    requires j in s.issued
  {
    s.now < s.issued[j].exp * SECOND + leeway && !Denied(c, s, j) && MayLogin(s, s.issued[j].user)
  }

  /** Every denylist entry was dated by now at the latest. */
  predicate Dated(c: Config, cache: Items, now: int) {
    forall k | k in cache :: cache[k].expiry.Some? && cache[k].expiry.value <= Stamp(c.driver, now, c.accessTtl)
  }

  /** cache' is cache with some entries dated now. */
  predicate Redated(c: Config, cache: Items, cache': Items, now: int) {
    && cache.Keys <= cache'.Keys
    && forall k | k in cache' :: cache'[k] == DenyItem(c, now) || (k in cache && cache'[k] == cache[k])
  }

  lemma {:induction false} EvictionRedates(c: Config, s: State, l: seq<FamilyId>)
    ensures Redated(c, s.cache, SignOutAll(c, s, l).cache, s.now)
    ensures SignOutAll(c, s, l).now == s.now
  {
    if l != [] {
      EvictionRedates(c, s, l[..|l| - 1]);
      SignOutAllEffect(c, s, l[..|l| - 1]);
    }
  }

  lemma CommandRedates(c: Config, s: State, cmd: Command)
    requires Enabled(s, cmd)
    ensures Redated(c, s.cache, Execute(c, s, cmd).0.cache, s.now) && s.now <= Execute(c, s, cmd).0.now
  {
    if cmd.Login? {
      EvictionRedates(c, s, cmd.listing[..Excess(c, |cmd.listing|)]);
    }
  }

  lemma StampMonotone(c: Config, a: int, b: int)
    requires a <= b
    ensures Stamp(c.driver, a, c.accessTtl) <= Stamp(c.driver, b, c.accessTtl)
  {
    UnixMonotone(a, b);
  }

  lemma {:induction false} RunKeepsDated(c: Config, s: State, run: seq<Command>)
    requires Sound(c) && Dated(c, s.cache, s.now) && Valid(c, s, run)
    ensures Dated(c, Exec(c, s, run).cache, Exec(c, s, run).now)
    decreases |run|
  {
    if run != [] {
      var s' := Execute(c, s, run[0]).0;
      CommandRedates(c, s, run[0]);
      StampMonotone(c, s.now, s'.now);
      RunKeepsDated(c, s', run[1..]);
    }
  }

  /** The entry under k lasts until limit at least. */
  predicate LastsUntil(c: Config, cache: Items, k: string, limit: int) {
    k in cache && cache[k].expiry.Some? && limit <= Deadline(c.driver, cache[k].expiry.value)
  }

  /** Denying again never shortens a denial. */
  lemma {:induction false} CoverStays(c: Config, s: State, run: seq<Command>, k: string, limit: int)
    requires Sound(c) && Dated(c, s.cache, s.now) && Valid(c, s, run) && LastsUntil(c, s.cache, k, limit)
    ensures LastsUntil(c, Exec(c, s, run).cache, k, limit)
    decreases |run|
  {
    if run != [] {
      var s' := Execute(c, s, run[0]).0;
      CommandRedates(c, s, run[0]);
      StampMonotone(c, s.now, s'.now);
      CoverStays(c, s', run[1..], k, limit);
    }
  }

  lemma {:induction false} TimePasses(c: Config, s: State, run: seq<Command>)
    requires Valid(c, s, run)
    ensures s.now <= Exec(c, s, run).now
    decreases |run|
  {
    if run != [] {
      CommandRedates(c, s, run[0]);
      TimePasses(c, Execute(c, s, run[0]).0, run[1..]);
    }
  }

  lemma DeniedUntil(c: Config, s: State, j: Jti)
    ensures Denied(c, s, j) <==>
              DenyKey(j) in s.cache
              && (s.cache[DenyKey(j)].expiry.None? || s.now < Deadline(c.driver, s.cache[DenyKey(j)].expiry.value))
  {
  }

  ghost predicate GetsIn(c: Config, s: State, run: seq<Command>, j: Jti, leeway: nat)
    requires j in s.issued
  {
    Valid(c, s, run) && j in Exec(c, s, run).issued && Exec(c, s, run).issued[j] == s.issued[j]
    && AcceptsWithin(c, Exec(c, s, run), j, leeway)
  }

  /** A denied token is out for good, leeway included, exactly when its entry lasts that long
      or the time is over already. */
  lemma OutForGoodIff(c: Config, s: State, j: Jti, leeway: nat)
    requires Sound(c) && Inv(c, s) && Dated(c, s.cache, s.now)
    requires j in s.issued && s.issued[j].family in s.signedOut
    ensures var limit := s.issued[j].exp * SECOND + leeway;
            (exists run :: GetsIn(c, s, run, j, leeway)) <==>
              s.now < limit && !LastsUntil(c, s.cache, DenyKey(j), limit)
  {
    var limit := s.issued[j].exp * SECOND + leeway;
    if s.now < limit && !LastsUntil(c, s.cache, DenyKey(j), limit) {
      var run := WaitForLapse(c, s, j, leeway);
    } else {
      forall run ensures !GetsIn(c, s, run, j, leeway) {
        if Valid(c, s, run) {
          TimePasses(c, s, run);
          if LastsUntil(c, s.cache, DenyKey(j), limit) {
            CoverStays(c, s, run, DenyKey(j), limit);
            DeniedUntil(c, Exec(c, s, run), j);
          }
        }
      }
    }
  }

  lemma Prepend(c: Config, s: State, cmd: Command, rest: seq<Command>)
    requires Enabled(s, cmd) && Valid(c, Execute(c, s, cmd).0, rest)
    ensures Valid(c, s, [cmd] + rest) && Exec(c, s, [cmd] + rest) == Exec(c, Execute(c, s, cmd).0, rest)
  {
    assert ([cmd] + rest)[1..] == rest;
  }

  lemma WaitForLapse(c: Config, s: State, j: Jti, leeway: nat) returns (run: seq<Command>)
    requires Sound(c) && Inv(c, s) && Dated(c, s.cache, s.now)
    requires j in s.issued && s.issued[j].family in s.signedOut
    requires s.now < s.issued[j].exp * SECOND + leeway
    requires !LastsUntil(c, s.cache, DenyKey(j), s.issued[j].exp * SECOND + leeway)
    ensures GetsIn(c, s, run, j, leeway)
  {
    assert DenialOk(c, s, j);
    var lapse := Deadline(c.driver, s.cache[DenyKey(j)].expiry.value);
    var wait: nat := if s.now < lapse then lapse - s.now else 0;
    run := [SetSuspended(s.issued[j].user, false), Tick(wait)];
    var s1 := Execute(c, s, run[0]).0;
    var s2 := Execute(c, s1, Tick(wait)).0;
    Prepend(c, s1, Tick(wait), []);
    Prepend(c, s, SetSuspended(s.issued[j].user, false), [Tick(wait)]);
    assert [Tick(wait)] + [] == [Tick(wait)];
    assert run == [SetSuspended(s.issued[j].user, false)] + [Tick(wait)];
    DeniedUntil(c, s2, j);
  }

  /** Evicting a list of families dates the entries of their tokens now. */
  lemma {:induction false} EvictionDates(c: Config, s: State, l: seq<FamilyId>, j: Jti)
    requires RowsOk(s) && j in s.issued && s.issued[j].family in l
    ensures var cache := SignOutAll(c, s, l).cache; DenyKey(j) in cache && cache[DenyKey(j)] == DenyItem(c, s.now)
  {
    var front, f := l[..|l| - 1], l[|l| - 1];
    assert l == front + [f];
    SignOutAllEffect(c, s, front);
    var s1 := SignOutAll(c, s, front);
    var jtis := JtisByFamily(s1.tokens, f);
    RowOf(s, j);
    DeniedInAt(c, s1.cache, s.now, jtis, j);
    var t :| t in s.tokens && s.tokens[t].jti == j;
    if s.issued[j].family == f {
      assert t in s1.tokens && s1.tokens[t].jti == j && s1.tokens[t].family == f;
    } else {
      EvictionDates(c, s, front, j);
    }
  }

  lemma RowOf(s: State, j: Jti)
    requires RowsOk(s) && j in s.issued
    ensures j != "" && exists t :: t in s.tokens && s.tokens[t].jti == j
  {
    assert HasRow(s, j);
  }

  lemma SignOutDates(c: Config, s: State, cmd: Command, f: FamilyId, j: Jti)
    requires Inv(c, s) && Enabled(s, cmd) && SignsOut(c, s, cmd, f)
    requires j in s.issued && s.issued[j].family == f
    ensures var s' := Execute(c, s, cmd).0;
            s'.now == s.now && DenyKey(j) in s'.cache && s'.cache[DenyKey(j)] == DenyItem(c, s.now)
  {
    RowOf(s, j);
    var t :| t in s.tokens && s.tokens[t].jti == j;
    if cmd.Login? {
      var evicted := cmd.listing[..Excess(c, |cmd.listing|)];
      EvictionDates(c, s, evicted, j);
      SignOutAllEffect(c, s, evicted);
    } else if cmd.ChangePassword? || cmd.ResetPassword? {
      var v :| v in s.tokens && s.tokens[v].user == cmd.user && s.tokens[v].family == f;
      assert s.tokens[t].user == cmd.user;
      assert j in JtisByUser(s.tokens, cmd.user);
      DeniedInAt(c, s.cache, s.now, JtisByUser(s.tokens, cmd.user), j);
    } else {
      assert j in JtisByFamily(s.tokens, f);
      DeniedInAt(c, s.cache, s.now, JtisByFamily(s.tokens, f), j);
    }
  }

  /**
   After any command that signs its family out, an access token is rejected for ever, the
   parser's leeway included, exactly when the denial lasts until expiry and leeway are
   over: within the leeway of issuing a token, signing out is not enough.
   */
  lemma LeewayCoveredIff(c: Config, before: seq<Command>, s: State, cmd: Command, f: FamilyId, j: Jti, leeway: nat)
    requires Sound(c) && Valid(c, Init, before) && s == Exec(c, Init, before)
    requires Enabled(s, cmd) && SignsOut(c, s, cmd, f) && j in s.issued && s.issued[j].family == f
    ensures var s', limit := Execute(c, s, cmd).0, s.issued[j].exp * SECOND + leeway;
            j in s'.issued &&
            ((exists after :: GetsIn(c, s', after, j, leeway))
             <==> s.now < limit && Deadline(c.driver, Stamp(c.driver, s.now, c.accessTtl)) < limit)
  {
    RunKeepsInv(c, Init, before);
    RunKeepsDated(c, Init, before);
    SignedOutAfter(c, s, cmd);
    StepKeepsInv(c, s, cmd);
    CommandRedates(c, s, cmd);
    SignOutDates(c, s, cmd, f, j);
    OutForGoodIff(c, Execute(c, s, cmd).0, j, leeway);
  }
}
