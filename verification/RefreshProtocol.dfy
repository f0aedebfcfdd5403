/**
 Refresh-token rotation with any number of concurrent requests
 (internal/modules/auth/application/command/refresh.go): each request reads its
 token, then revokes it by compare-and-set, then saves the successor, and logins,
 sign-outs, password changes and other requests may run between those steps.
 */
module RefreshProtocol {
  import opened Sequences

  type TokenId = nat
  type FamilyId = nat
  type UserId = nat
  type ThreadId = nat

  /**
   generation counts the rotations since login, and password is how often the user's password
   had changed when the login verified it; both are history, not columns.
   */
  datatype Token = Token(user: UserId, family: FamilyId, revoked: bool, generation: nat, password: nat)

  /** One Refresh call between its steps, all bound to the token it was given. */
  datatype Thread =
    | Found(token: TokenId)
    | Won(token: TokenId)
    | Reuse(token: TokenId)
    | Denied(token: TokenId)

  /** A login that has verified a password, its second factor perhaps still to come, and not saved its token yet. */
  datatype Attempt = Attempt(user: UserId, password: nat)

  /**
   changes counts the password changes of each user.
   denied holds the tokens whose access tokens are on the denylist; an access token is
   minted with each refresh token. exchanges, one entry per successor saved, is history.
   */
  datatype State = State(tokens: map<TokenId, Token>, threads: map<ThreadId, Thread>,
                         logins: map<ThreadId, Attempt>, changes: multiset<UserId>,
                         denied: set<TokenId>, exchanges: multiset<TokenId>)

  datatype Step =
    | Verify(th: ThreadId, user: UserId)
    | Login(th: ThreadId, id: TokenId, family: FamilyId)
    | GiveUp(th: ThreadId)
    | ChangePassword(user: UserId)
    | Present(th: ThreadId, id: TokenId)
    | RevokeIfActive(th: ThreadId)
    | Save(th: ThreadId, id: TokenId)
    | PunishDeny(th: ThreadId)
    | PunishReuse(th: ThreadId)
    | Abandon(th: ThreadId)
    | DenyFamily(family: FamilyId)
    | DenyUser(user: UserId)
    | RevokeFamily(family: FamilyId)
    | RevokeUser(user: UserId)

  predicate Known(s: State, f: FamilyId) { exists t :: t in s.tokens && s.tokens[t].family == f }

  predicate Enabled(s: State, e: Step) {
    match e
    case Verify(th, _) => th !in s.logins
    case Login(th, id, f) => th in s.logins && id !in s.tokens && !Known(s, f)
    case GiveUp(th) => th in s.logins
    case ChangePassword(_) => true
    case Present(th, id) => th !in s.threads && id in s.tokens
    case RevokeIfActive(th) => th in s.threads && s.threads[th].Found? && s.threads[th].token in s.tokens
    case Save(th, id) => th in s.threads && s.threads[th].Won? && s.threads[th].token in s.tokens && id !in s.tokens
    case PunishDeny(th) => th in s.threads && s.threads[th].Reuse? && s.threads[th].token in s.tokens
    case PunishReuse(th) => th in s.threads && s.threads[th].Denied? && s.threads[th].token in s.tokens
    case Abandon(th) => th in s.threads
    case DenyFamily(_) => true
    case DenyUser(_) => true
    case RevokeFamily(_) => true
    case RevokeUser(_) => true
  }

  /** UPDATE ... SET revoked_at WHERE family_id = ? AND revoked_at IS NULL. */
  function FamilyRevoked(tokens: map<TokenId, Token>, f: FamilyId): map<TokenId, Token> {
    map t | t in tokens :: if tokens[t].family == f then tokens[t].(revoked := true) else tokens[t]
  }

  function UserRevoked(tokens: map<TokenId, Token>, u: UserId): map<TokenId, Token> {
    map t | t in tokens :: if tokens[t].user == u then tokens[t].(revoked := true) else tokens[t]
  }

  /** The rows JtisByFamily and JtisByUser read. */
  function OfFamily(s: State, f: FamilyId): set<TokenId> { set t | t in s.tokens && s.tokens[t].family == f }

  function OfUser(s: State, u: UserId): set<TokenId> { set t | t in s.tokens && s.tokens[t].user == u }

  function Apply(s: State, e: Step): State
    requires Enabled(s, e)
  {
    match e
    case Verify(th, u) => s.(logins := s.logins[th := Attempt(u, s.changes[u])])
    case Login(th, id, f) =>
      var a := s.logins[th];
      s.(tokens := s.tokens[id := Token(a.user, f, false, 0, a.password)], logins := s.logins - {th})
    case GiveUp(th) => s.(logins := s.logins - {th})
    case ChangePassword(u) => s.(changes := s.changes + multiset{u})
    case Present(th, id) =>
      s.(threads := s.threads[th := if s.tokens[id].revoked then Reuse(id) else Found(id)])
    case RevokeIfActive(th) =>
      var id := s.threads[th].token;
      if s.tokens[id].revoked then s.(threads := s.threads[th := Reuse(id)])
      else s.(tokens := s.tokens[id := s.tokens[id].(revoked := true)], threads := s.threads[th := Won(id)])
    case Save(th, id) =>
      var t := s.tokens[s.threads[th].token];
      s.(tokens := s.tokens[id := Token(t.user, t.family, false, t.generation + 1, t.password)],
         threads := s.threads - {th}, exchanges := s.exchanges + multiset{s.threads[th].token})
    case PunishDeny(th) =>
      var id := s.threads[th].token;
      s.(denied := s.denied + OfFamily(s, s.tokens[id].family), threads := s.threads[th := Denied(id)])
    case PunishReuse(th) =>
      s.(tokens := FamilyRevoked(s.tokens, s.tokens[s.threads[th].token].family), threads := s.threads - {th})
    case Abandon(th) => s.(threads := s.threads - {th})
    case DenyFamily(f) => s.(denied := s.denied + OfFamily(s, f))
    case DenyUser(u) => s.(denied := s.denied + OfUser(s, u))
    case RevokeFamily(f) => s.(tokens := FamilyRevoked(s.tokens, f))
    case RevokeUser(u) => s.(tokens := UserRevoked(s.tokens, u))
  }

  predicate Valid(s: State, run: seq<Step>)
    decreases |run|
  {
    run == [] || (Enabled(s, run[0]) && Valid(Apply(s, run[0]), run[1..]))
  }

  function Exec(s: State, run: seq<Step>): State
    requires Valid(s, run)
    decreases |run|
  {
    if run == [] then s else Exec(Apply(s, run[0]), run[1..])
  }

  lemma OneStep(s: State, e: Step)
    requires Enabled(s, e)
    ensures Valid(s, [e]) && Exec(s, [e]) == Apply(s, e)
  {
    assert [e][1..] == [];
  }

  const Init := State(map[], map[], map[], multiset{}, {}, multiset{})

  /** The family's un-revoked tokens. */
  function Active(s: State, f: FamilyId): set<TokenId> {
    set t | t in s.tokens && s.tokens[t].family == f && !s.tokens[t].revoked
  }

  predicate Flying(s: State, th: ThreadId, f: FamilyId) {
    && th in s.threads && s.threads[th].Won?
    && s.threads[th].token in s.tokens && s.tokens[s.threads[th].token].family == f
  }

  /** The family's rotations that won the compare-and-set and have not saved yet. */
  function InFlight(s: State, f: FamilyId): set<ThreadId> {
    set th | th in s.threads && Flying(s, th, f)
  }

  /** No token of t's family is newer than t. */
  predicate Newest(s: State, t: TokenId) {
    t in s.tokens &&
    forall o | o in s.tokens && s.tokens[o].family == s.tokens[t].family ::
        s.tokens[o].generation <= s.tokens[t].generation
  }

  /** No two tokens of a family are the same rotation. */
  predicate Numbered(s: State) {
    forall a, b | a in s.tokens && b in s.tokens && SameRotation(s.tokens[a], s.tokens[b]) :: a == b
  }

  predicate SameRotation(a: Token, b: Token) { a.family == b.family && a.generation == b.generation }

  /** A rotation that has won holds the newest token, which it has revoked. */
  predicate Winner(s: State, th: ThreadId)
    requires th in s.threads
  {
    s.threads[th].Won? ==> Newest(s, s.threads[th].token) && s.tokens[s.threads[th].token].revoked
  }

  /** No other rotation has won with the same token. */
  predicate SoleWinner(s: State, th: ThreadId)
    requires th in s.threads
  {
    s.threads[th].Won? ==>
      forall ti | ti in s.threads && s.threads[ti].Won? && s.threads[ti].token == s.threads[th].token :: ti == th
  }

  predicate Linear(s: State) {
    && Numbered(s)
    && (forall t | t in s.tokens && !s.tokens[t].revoked :: Newest(s, t))
    && (forall th | th in s.threads :: s.threads[th].token in s.tokens && Winner(s, th) && SoleWinner(s, th))
  }

  /** A token has at most one successor, and has one only if it is not its family's newest. */
  predicate ExchangedOk(s: State, t: TokenId) {
    s.exchanges[t] <= 1 && (s.exchanges[t] > 0 ==> t in s.tokens && !Newest(s, t))
  }

  /** A family's tokens share their user and password. */
  predicate Owned(s: State) {
    forall a, b | a in s.tokens && b in s.tokens && s.tokens[a].family == s.tokens[b].family ::
      s.tokens[a].user == s.tokens[b].user && s.tokens[a].password == s.tokens[b].password
  }

  ghost predicate Inv(s: State) {
    Linear(s) && Owned(s) && s.denied <= s.tokens.Keys && forall t :: ExchangedOk(s, t)
  }

  /** s' has the tokens of s, some of them revoked since. */
  predicate OnlyRevoked(s: State, s': State) {
    && s'.tokens.Keys == s.tokens.Keys
    && forall t | t in s.tokens ::
         && s'.tokens[t].family == s.tokens[t].family && s'.tokens[t].generation == s.tokens[t].generation
         && (s.tokens[t].revoked ==> s'.tokens[t].revoked)
  }

  /** s' has no more threads than s, but for those that have not won. */
  predicate NoWinnerAdded(s: State, s': State) {
    forall th | th in s'.threads ::
      && s'.threads[th].token in s.tokens
      && (s'.threads[th].Won? ==> th in s.threads && s.threads[th] == s'.threads[th])
  }

  /** Steps that add no token and win no rotation. */
  lemma RevokingKeepsLinear(s: State, s': State)
    requires Linear(s) && OnlyRevoked(s, s') && NoWinnerAdded(s, s')
    ensures Linear(s')
  {
    forall t | Newest(s, t) ensures Newest(s', t) {}
    forall th | th in s'.threads ensures Winner(s', th) && SoleWinner(s', th) {
      assert th in s.threads && s'.threads[th].Won? ==> Winner(s, th) && SoleWinner(s, th);
    }
  }

  lemma PresentKeepsLinear(s: State, th: ThreadId, id: TokenId)
    requires Linear(s) && Enabled(s, Present(th, id))
    ensures Linear(Apply(s, Present(th, id)))
  {
    RevokingKeepsLinear(s, Apply(s, Present(th, id)));
  }

  lemma WinKeepsLinear(s: State, th: ThreadId)
    requires Linear(s) && Enabled(s, RevokeIfActive(th)) && !s.tokens[s.threads[th].token].revoked
    ensures Linear(Apply(s, RevokeIfActive(th)))
  {
    var s' := Apply(s, RevokeIfActive(th));
    var w := s.threads[th].token;
    assert forall ti | ti in s.threads && s.threads[ti].Won? :: Winner(s, ti) && s.threads[ti].token != w;
    forall t | Newest(s, t) ensures Newest(s', t) {}
    assert Newest(s, w);
    forall ti | ti in s'.threads ensures Winner(s', ti) && SoleWinner(s', ti) {
      assert ti in s.threads && Winner(s, ti) && SoleWinner(s, ti);
    }
  }

  lemma CompareAndSetKeepsLinear(s: State, th: ThreadId)
    requires Linear(s) && Enabled(s, RevokeIfActive(th))
    ensures Linear(Apply(s, RevokeIfActive(th)))
  {
    if s.tokens[s.threads[th].token].revoked {
      RevokingKeepsLinear(s, Apply(s, RevokeIfActive(th)));
    } else {
      WinKeepsLinear(s, th);
    }
  }

  lemma PunishKeepsLinear(s: State, e: Step)
    requires Linear(s) && Enabled(s, e) && (e.PunishDeny? || e.PunishReuse? || e.Abandon?)
    ensures Linear(Apply(s, e))
  {
    RevokingKeepsLinear(s, Apply(s, e));
  }

  lemma SweepKeepsLinear(s: State, e: Step)
    requires Linear(s) && Enabled(s, e) && (e.DenyFamily? || e.DenyUser? || e.RevokeFamily? || e.RevokeUser?)
    ensures Linear(Apply(s, e))
  {
    RevokingKeepsLinear(s, Apply(s, e));
  }

  lemma LoginKeepsLinear(s: State, th: ThreadId, id: TokenId, f: FamilyId)
    requires Linear(s) && Enabled(s, Login(th, id, f))
    ensures Linear(Apply(s, Login(th, id, f)))
  {
    var s' := Apply(s, Login(th, id, f));
    assert forall t | t in s.tokens :: s.tokens[t].family != f;
    forall t | Newest(s, t) ensures Newest(s', t) {}
    assert Newest(s', id);
    assert forall ti | ti in s.threads :: Winner(s, ti) && SoleWinner(s, ti);
  }

  /** The successor is one rotation newer than every token of its family. */
  lemma SavedIsNewest(s: State, th: ThreadId, id: TokenId)
    requires Linear(s) && Enabled(s, Save(th, id))
    ensures var s', w := Apply(s, Save(th, id)), s.threads[th].token;
            && Newest(s', id) && Numbered(s')
            && (forall t | Newest(s, t) && t != w :: s.tokens[t].family != s.tokens[w].family && Newest(s', t))
  {
    var s', w := Apply(s, Save(th, id)), s.threads[th].token;
    assert Winner(s, th);
    assert forall o | o in s.tokens && s.tokens[o].family == s.tokens[w].family ::
        s.tokens[o].generation <= s.tokens[w].generation;
    assert Newest(s', id);
    forall t | Newest(s, t) && t != w ensures s.tokens[t].family != s.tokens[w].family && Newest(s', t) {
      assert SameRotation(s.tokens[t], s.tokens[w]) ==> t == w;
    }
  }

  lemma SaveKeepsLinear(s: State, th: ThreadId, id: TokenId)
    requires Linear(s) && Enabled(s, Save(th, id))
    ensures Linear(Apply(s, Save(th, id)))
  {
    var s', w := Apply(s, Save(th, id)), s.threads[th].token;
    SavedIsNewest(s, th, id);
    assert Winner(s, th) && SoleWinner(s, th);
    forall ti | ti in s'.threads ensures Winner(s', ti) && SoleWinner(s', ti) {
      assert Winner(s, ti) && SoleWinner(s, ti);
    }
  }

  lemma StepKeepsLinear(s: State, e: Step)
    requires Linear(s) && Enabled(s, e)
    ensures Linear(Apply(s, e))
  {
    match e
    case Save(th, id) => SaveKeepsLinear(s, th, id);
    case Login(th, id, f) => LoginKeepsLinear(s, th, id, f);
    case Present(th, id) => PresentKeepsLinear(s, th, id);
    case RevokeIfActive(th) => CompareAndSetKeepsLinear(s, th);
    case Verify(_, _) => RevokingKeepsLinear(s, Apply(s, e));
    case GiveUp(_) => RevokingKeepsLinear(s, Apply(s, e));
    case ChangePassword(_) => RevokingKeepsLinear(s, Apply(s, e));
    case PunishDeny(_) => PunishKeepsLinear(s, e);
    case PunishReuse(_) => PunishKeepsLinear(s, e);
    case Abandon(_) => PunishKeepsLinear(s, e);
    case _ => SweepKeepsLinear(s, e);
  }

  /** s' has the tokens of s, with everything but the revocation as it was. */
  predicate Extends(s: State, s': State) {
    forall t | t in s.tokens :: t in s'.tokens && s'.tokens[t].(revoked := s.tokens[t].revoked) == s.tokens[t]
  }

  predicate Adds(e: Step, t: TokenId) { (e.Save? || e.Login?) && e.id == t }

  lemma StepExtends(s: State, e: Step)
    requires Enabled(s, e)
    ensures Extends(s, Apply(s, e))
    ensures forall t | t in Apply(s, e).tokens :: t in s.tokens || Adds(e, t)
  {
  }

  lemma StepKeepsOwned(s: State, e: Step)
    requires Owned(s) && Enabled(s, e)
    ensures Owned(Apply(s, e))
  {
    var s' := Apply(s, e);
    StepExtends(s, e);
    if e.Login? {
      assert forall t | t in s.tokens :: s.tokens[t].family != e.family;
    } else if e.Save? {
      assert forall t | t in s.tokens && s.tokens[t].family == s'.tokens[e.id].family ::
          s.tokens[t].user == s'.tokens[e.id].user && s.tokens[t].password == s'.tokens[e.id].password;
    }
  }

  lemma NewestStays(s: State, s': State, t: TokenId)
    requires Extends(s, s') && t in s.tokens && !Newest(s, t)
    ensures !Newest(s', t)
  {
    var o :| o in s.tokens && s.tokens[o].family == s.tokens[t].family
        && s.tokens[o].generation > s.tokens[t].generation;
    assert s'.tokens[o].generation > s'.tokens[t].generation;
  }

  lemma SaveKeepsCount(s: State, th: ThreadId, id: TokenId)
    requires Inv(s) && Enabled(s, Save(th, id))
    ensures ExchangedOk(Apply(s, Save(th, id)), s.threads[th].token)
  {
    var s', w := Apply(s, Save(th, id)), s.threads[th].token;
    assert Winner(s, th) && ExchangedOk(s, w);
    assert s'.tokens[id].generation > s'.tokens[w].generation && !Newest(s', w);
  }

  lemma StepKeepsCounts(s: State, e: Step)
    requires Inv(s) && Enabled(s, e)
    ensures forall t :: ExchangedOk(Apply(s, e), t)
  {
    var s' := Apply(s, e);
    StepExtends(s, e);
    forall t ensures ExchangedOk(s', t) {
      assert ExchangedOk(s, t);
      if e.Save? && t == s.threads[e.th].token {
        SaveKeepsCount(s, e.th, e.id);
      } else if t in s.tokens && !Newest(s, t) {
        NewestStays(s, s', t);
      }
    }
  }

  lemma StepKeepsDenied(s: State, e: Step)
    requires s.denied <= s.tokens.Keys && Enabled(s, e)
    ensures Apply(s, e).denied <= Apply(s, e).tokens.Keys
  {
    StepExtends(s, e);
  }

  lemma StepKeepsInv(s: State, e: Step)
    requires Inv(s) && Enabled(s, e)
    ensures Inv(Apply(s, e))
  {
    StepKeepsLinear(s, e);
    StepKeepsOwned(s, e);
    StepKeepsCounts(s, e);
    StepKeepsDenied(s, e);
  }

  lemma {:induction false} RunExtends(s: State, run: seq<Step>)
    requires Valid(s, run)
    ensures Extends(s, Exec(s, run)) && s.changes <= Exec(s, run).changes
    decreases |run|
  {
    if run != [] {
      var s' := Apply(s, run[0]);
      StepExtends(s, run[0]);
      RunExtends(s', run[1..]);
      assert forall t | t in s.tokens :: t in s'.tokens;
    }
  }

  lemma {:induction false} RunKeepsInv(s: State, run: seq<Step>)
    requires Inv(s) && Valid(s, run)
    ensures Inv(Exec(s, run))
    decreases |run|
  {
    if run != [] {
      StepKeepsInv(s, run[0]);
      RunKeepsInv(Apply(s, run[0]), run[1..]);
    }
  }

  /**
   In every schedule a family has at most one live credential, counting both its
   un-revoked tokens and the rotations about to save one.
   */
  lemma OneCredentialPerFamily(run: seq<Step>, f: FamilyId)
    requires Valid(Init, run)
    ensures var s := Exec(Init, run); |Active(s, f)| + |InFlight(s, f)| <= 1
  {
    RunKeepsInv(Init, run);
    var s := Exec(Init, run);
    var active, flying := Active(s, f), InFlight(s, f);
    forall a, b | a in active && b in active ensures a == b {
      assert Newest(s, a) && Newest(s, b);
    }
    forall th, ti | th in flying && ti in flying ensures th == ti {
      assert Newest(s, s.threads[th].token) && Newest(s, s.threads[ti].token);
    }
    forall a, th | a in active && th in s.threads ensures !Flying(s, th, f) {
      var w := s.threads[th].token;
      assert Newest(s, a);
      assert s.threads[th].Won? ==> Newest(s, w) && s.tokens[w].revoked;
    }
    assert active == {} || flying == {};
    AtMostOne(active);
    AtMostOne(flying);
  }

  lemma AtMostOne(s: set<nat>)
    requires forall a, b | a in s && b in s :: a == b
    ensures |s| <= 1
  {
    if a :| a in s {
      assert s == {a};
    }
  }

  /**
   A family's history is one line: generations never repeat, every un-revoked token is
   the newest, so each refresh token has been exchanged for at most one successor.
   */
  lemma FamilyIsLinear(run: seq<Step>, a: TokenId, b: TokenId)
    requires Valid(Init, run)
    requires var s := Exec(Init, run); a in s.tokens && b in s.tokens && s.tokens[a].family == s.tokens[b].family
    ensures var s := Exec(Init, run);
            && (s.tokens[a].generation == s.tokens[b].generation ==> a == b)
            && (s.tokens[a].generation < s.tokens[b].generation ==> s.tokens[a].revoked)
  {
    RunKeepsInv(Init, run);
    var s := Exec(Init, run);
    if !s.tokens[a].revoked { assert Newest(s, a); }
  }

  /** In every schedule each refresh token has been exchanged for a successor at most once. */
  lemma ExchangedAtMostOnce(run: seq<Step>, t: TokenId)
    requires Valid(Init, run)
    ensures Exec(Init, run).exchanges[t] <= 1
  {
    RunKeepsInv(Init, run);
    assert ExchangedOk(Exec(Init, run), t);
  }

  /**
   A refresh that nothing interrupts exchanges a live token: in any state, its request leaves
   the token revoked and a live successor of the same user and family.
   */
  lemma LiveTokenIsExchanged(s: State, t: TokenId, th: ThreadId, id: TokenId)
    requires t in s.tokens && !s.tokens[t].revoked && th !in s.threads && id !in s.tokens
    ensures var run := [Present(th, t), RevokeIfActive(th), Save(th, id)];
            && Valid(s, run)
            && var s', was := Exec(s, run), s.tokens[t];
               var next := Token(was.user, was.family, false, was.generation + 1, was.password);
               && s'.tokens == s.tokens[t := was.(revoked := true)][id := next]
               && s'.threads == s.threads && s'.denied == s.denied
  {
    var run := [Present(th, t), RevokeIfActive(th), Save(th, id)];
    var s1 := Apply(s, run[0]);
    var s2 := Apply(s1, run[1]);
    OneStep(s2, run[2]);
    assert run[2..] == [run[2]] && run[1..][1..] == run[2..];
    assert Valid(s1, run[1..]) && Exec(s1, run[1..]) == Exec(s2, run[2..]);
    assert Apply(s2, run[2]).threads == s.threads;
  }

  predicate Dead(s: State, f: FamilyId) {
    && Known(s, f)
    && Active(s, f) == {}
    && InFlight(s, f) == {}
  }

  lemma DeadMeans(s: State, f: FamilyId)
    ensures Dead(s, f) <==>
              && Known(s, f)
              && (forall t | t in s.tokens && s.tokens[t].family == f :: s.tokens[t].revoked)
              && (forall th | th in s.threads :: !Flying(s, th, f))
  {
    assert forall t | t in s.tokens && s.tokens[t].family == f :: s.tokens[t].revoked <==> t !in Active(s, f);
    assert forall th | th in s.threads :: Flying(s, th, f) <==> th in InFlight(s, f);
  }

  lemma KnownStays(s: State, s': State, f: FamilyId)
    requires Extends(s, s') && Known(s, f)
    ensures Known(s', f)
  {
    var t :| t in s.tokens && s.tokens[t].family == f;
    assert t in s'.tokens && s'.tokens[t].family == f;
  }

  lemma DeadStep(s: State, e: Step, f: FamilyId)
    requires Dead(s, f) && Enabled(s, e)
    ensures Dead(Apply(s, e), f)
  {
    var s' := Apply(s, e);
    DeadMeans(s, f);
    StepExtends(s, e);
    KnownStays(s, s', f);
    assert e.Save? ==> !Flying(s, e.th, f);
    assert forall t | t in s'.tokens && s'.tokens[t].family == f :: s'.tokens[t].revoked;
    forall th | th in s'.threads ensures !Flying(s', th, f) {
      assert th in s.threads ==> !Flying(s, th, f);
    }
    DeadMeans(s', f);
  }

  lemma {:induction false} DeadRun(s: State, run: seq<Step>, f: FamilyId)
    requires Dead(s, f) && Valid(s, run)
    ensures Active(Exec(s, run), f) == {}
    decreases |run|
  {
    if run != [] {
      DeadStep(s, run[0], f);
      DeadRun(Apply(s, run[0]), run[1..], f);
    }
  }

  /**
   When revoking a family is final: after RevokeFamily no schedule ever gives the family
   a live token again if and only if no rotation of it was in flight at that moment. A
   rotation that had already won still saves its successor after the revocation.
   */
  lemma RevocationFinalIff(s: State, f: FamilyId)
    requires Known(s, f)
    ensures var r := Apply(s, RevokeFamily(f));
            (forall run | Valid(r, run) :: Active(Exec(r, run), f) == {}) <==> InFlight(s, f) == {}
  {
    var r := Apply(s, RevokeFamily(f));
    KnownStays(s, r, f);
    assert InFlight(r, f) == InFlight(s, f);
    if InFlight(s, f) == {} {
      forall run | Valid(r, run) ensures Active(Exec(r, run), f) == {} {
        DeadRun(r, run, f);
      }
    } else {
      var th :| th in InFlight(s, f);
      var run := LateSave(r, th, f);
    }
  }

  /** Every access token of the family is on the denylist. */
  predicate AllDenied(s: State, f: FamilyId) { OfFamily(s, f) <= s.denied }

  lemma LateSave(s: State, th: ThreadId, f: FamilyId) returns (run: seq<Step>)
    requires Flying(s, th, f)
    ensures Valid(s, run) && Active(Exec(s, run), f) != {} && !AllDenied(Exec(s, run), f)
  {
    var id := FreshNat(s.tokens.Keys + s.denied);
    var e := Save(th, id);
    run := [e];
    OneStep(s, e);
    assert id in Active(Apply(s, e), f);
    assert id in OfFamily(Apply(s, e), f) && id !in Apply(s, e).denied;
  }
}
