/**
 Login sessions over whole serial runs (internal/modules/auth): issuing and rotating
 refresh tokens, the session cap, every way of signing out, and the denylist that must
 reject the access tokens of a session that has been signed out. Each command runs to
 completion before the next one, and its cache writes succeed.
 */
module Sessions {
  import opened Common
  import opened Sequences
  import opened Clock
  import opened CacheDrivers

  type TokenId = nat
  type FamilyId = nat
  type UserId = nat
  type Jti = string

  datatype Config = Config(accessTtl: int, refreshTtl: int, maxSessions: int, driver: Driver)

  predicate Sound(c: Config) { 0 < c.accessTtl && 0 < c.refreshTtl }

  /** A refresh_tokens row. */
  datatype Token = Token(user: UserId, family: FamilyId, jti: Jti, expiresAt: int, revoked: bool, createdAt: int)

  /** An access token handed out; exp is in whole seconds, as a JWT carries it. */
  datatype Access = Access(user: UserId, family: FamilyId, exp: int)

  /**
   now, users (id to suspended), tokens and cache are the system. issued, every access
   token ever returned by its jti, and signedOut, every family some command has signed
   out, are history.
   */
  datatype State = State(
    now: int, users: map<UserId, bool>, tokens: map<TokenId, Token>, cache: Items,
    issued: map<Jti, Access>, signedOut: set<FamilyId>)

  const Init := State(0, map[], map[], map[], map[], {})

  datatype Result = Issued(jti: Jti) | Completed | Unauthorized | NoSuchSession

  datatype Command =
    | Login(user: UserId, id: TokenId, family: FamilyId, jti: Jti, listing: seq<FamilyId>)
    | Refresh(presented: Option<TokenId>, id: TokenId, jti: Jti)
    | Logout(user: UserId, presented: Option<TokenId>)
    | RevokeSession(user: UserId, family: FamilyId)
    | ChangePassword(user: UserId)
    | ResetPassword(user: UserId)
    | SetSuspended(user: UserId, suspended: bool)
    | Tick(dt: nat)

  // ---------------------------------------------------------------------------
  // Tables and denylist
  // ---------------------------------------------------------------------------

  function FamilyRevoked(tokens: map<TokenId, Token>, f: FamilyId): map<TokenId, Token> {
    map t | t in tokens :: if tokens[t].family == f then tokens[t].(revoked := true) else tokens[t]
  }

  function UserRevoked(tokens: map<TokenId, Token>, u: UserId): map<TokenId, Token> {
    map t | t in tokens :: if tokens[t].user == u then tokens[t].(revoked := true) else tokens[t]
  }

  function JtisByFamily(tokens: map<TokenId, Token>, f: FamilyId): set<Jti> {
    set t | t in tokens && tokens[t].family == f :: tokens[t].jti
  }

  function JtisByUser(tokens: map<TokenId, Token>, u: UserId): set<Jti> {
    set t | t in tokens && tokens[t].user == u :: tokens[t].jti
  }

  function FamiliesOf(tokens: map<TokenId, Token>, u: UserId): set<FamilyId> {
    set t | t in tokens && tokens[t].user == u :: tokens[t].family
  }

  function DenyKey(j: Jti): string { "auth:jti:deny:" + j }

  lemma DenyKeyInjective(a: Jti, b: Jti)
    requires DenyKey(a) == DenyKey(b)
    ensures a == b
  {
    assert a == DenyKey(a)[14..] && b == DenyKey(b)[14..];
  }

  function DenyKeys(jtis: set<Jti>): set<string> {
    set j | j in jtis && j != "" :: DenyKey(j)
  }

  function DenyItem(c: Config, now: int): Item {
    Item("1", if c.accessTtl > 0 then Some(Stamp(c.driver, now, c.accessTtl)) else None)
  }

  /** The cache once every non-empty jti has been set. */
  function DeniedIn(c: Config, cache: Items, now: int, jtis: set<Jti>): Items {
    cache + map k | k in DenyKeys(jtis) :: DenyItem(c, now)
  }

  /** The token keeps its family among the user's active ones: SQL's expires_at > now. */
  predicate IsActive(tokens: map<TokenId, Token>, t: TokenId, u: UserId, now: int) {
    t in tokens && tokens[t].user == u && !tokens[t].revoked && tokens[t].expiresAt > now
  }

  function ActiveFamilies(tokens: map<TokenId, Token>, u: UserId, now: int): set<FamilyId> {
    set t | t in tokens && IsActive(tokens, t, u, now) :: tokens[t].family
  }

  predicate IsMax(times: set<int>, m: int) { m in times && forall x | x in times :: x <= m }

  lemma {:induction false} MaxExists(times: set<int>, x: int) returns (m: int)
    requires x in times
    ensures IsMax(times, m)
    decreases times
  {
    if y :| y in times && x < y {
      m := MaxExists(times - {x}, y);
      assert forall z | z in times :: z == x || z in times - {x};
    } else {
      m := x;
    }
  }

  function CreationTimes(tokens: map<TokenId, Token>, u: UserId, now: int, f: FamilyId): set<int> {
    set t | t in tokens && IsActive(tokens, t, u, now) && tokens[t].family == f :: tokens[t].createdAt
  }

  /** MAX(created_at) over the family's active tokens. */
  ghost function Latest(tokens: map<TokenId, Token>, u: UserId, now: int, f: FamilyId): int {
    var times := CreationTimes(tokens, u, now, f);
    if exists m :: IsMax(times, m) then (var m :| IsMax(times, m); m) else 0
  }

  /** The row counts for the listing of its family. */
  predicate Counts(t: Token, u: UserId, now: int, f: FamilyId) {
    t.user == u && t.family == f && !t.revoked && now < t.expiresAt
  }

  lemma LatestIsMax(tokens: map<TokenId, Token>, u: UserId, now: int, f: FamilyId)
    requires f in ActiveFamilies(tokens, u, now)
    ensures IsMax(CreationTimes(tokens, u, now, f), Latest(tokens, u, now, f))
    ensures exists t :: t in tokens && Counts(tokens[t], u, now, f) && tokens[t].createdAt == Latest(tokens, u, now, f)
    ensures forall t | t in tokens && Counts(tokens[t], u, now, f) :: tokens[t].createdAt <= Latest(tokens, u, now, f)
  {
    var t :| t in tokens && IsActive(tokens, t, u, now) && tokens[t].family == f;
    var m := MaxExists(CreationTimes(tokens, u, now, f), tokens[t].createdAt);
    forall v | v in tokens && Counts(tokens[v], u, now, f)
      ensures tokens[v].createdAt <= Latest(tokens, u, now, f)
    {
      assert IsActive(tokens, v, u, now);
      assert tokens[v].createdAt in CreationTimes(tokens, u, now, f);
    }
    var w :| w in tokens && IsActive(tokens, w, u, now) && tokens[w].family == f
             && tokens[w].createdAt == Latest(tokens, u, now, f);
    assert Counts(tokens[w], u, now, f);
  }

  /** A result of ListActiveFamilies: each active family once, by newest creation time. */
  ghost predicate IsListing(tokens: map<TokenId, Token>, u: UserId, now: int, l: seq<FamilyId>) {
    && Distinct(l) && Elements(l) == ActiveFamilies(tokens, u, now)
    && forall i, j | 0 <= i < j < |l| :: Latest(tokens, u, now, l[i]) <= Latest(tokens, u, now, l[j])
  }

  // ---------------------------------------------------------------------------
  // Commands
  // ---------------------------------------------------------------------------

  /** Deny the family's access tokens, revoke its refresh tokens. */
  function SignOut(c: Config, s: State, f: FamilyId): State {
    s.(cache := DeniedIn(c, s.cache, s.now, JtisByFamily(s.tokens, f)),
       tokens := FamilyRevoked(s.tokens, f), signedOut := s.signedOut + {f})
  }

  function SignOutUser(c: Config, s: State, u: UserId): State {
    s.(cache := DeniedIn(c, s.cache, s.now, JtisByUser(s.tokens, u)),
       tokens := UserRevoked(s.tokens, u), signedOut := s.signedOut + FamiliesOf(s.tokens, u))
  }

  function SignOutAll(c: Config, s: State, l: seq<FamilyId>): State {
    if l == [] then s else SignOut(c, SignOutAll(c, s, l[..|l| - 1]), l[|l| - 1])
  }

  /** How many of n active sessions a new login evicts. */
  function Excess(c: Config, n: nat): (k: nat)
    ensures k <= n
  {
    if c.maxSessions <= 0 || n < c.maxSessions then 0 else n - (c.maxSessions - 1)
  }

  function Issue(c: Config, s: State, u: UserId, f: FamilyId, id: TokenId, jti: Jti): State {
    s.(tokens := s.tokens[id := Token(u, f, jti, s.now + c.refreshTtl, false, s.now)],
       issued := s.issued[jti := Access(u, f, Unix(s.now + c.accessTtl))])
  }

  predicate MayLogin(s: State, u: UserId) { u in s.users && !s.users[u] }

  predicate IsExpired(s: State, t: Token) { s.now > t.expiresAt }

  /** The presented token goes through to rotation. */
  predicate Rotates(s: State, presented: Option<TokenId>) {
    presented.Some? && presented.value in s.tokens &&
    var t := s.tokens[presented.value];
    !t.revoked && !IsExpired(s, t) && MayLogin(s, t.user)
  }

  /** Identifiers the application generates are new; listing is what the query returned. */
  ghost predicate Enabled(s: State, cmd: Command) {
    match cmd
    case Login(u, id, f, jti, l) =>
      && id !in s.tokens && jti !in s.issued && jti != ""
      && f !in s.signedOut && (forall t | t in s.tokens :: s.tokens[t].family != f)
      && IsListing(s.tokens, u, s.now, l)
    case Refresh(_, id, jti) => id !in s.tokens && jti !in s.issued && jti != ""
    case _ => true
  }

  function Execute(c: Config, s: State, cmd: Command): (State, Result)
    requires Enabled(s, cmd)
  {
    match cmd
    case Login(u, id, f, jti, l) =>
      if !MayLogin(s, u) then (s, Unauthorized)
      else (Issue(c, SignOutAll(c, s, l[..Excess(c, |l|)]), u, f, id, jti), Issued(jti))
    case Refresh(presented, id, jti) =>
      if presented.None? || presented.value !in s.tokens then (s, Unauthorized)
      else
        var t := s.tokens[presented.value];
        if t.revoked then (SignOut(c, s, t.family), Unauthorized)
        else if IsExpired(s, t) || !MayLogin(s, t.user) then (s, Unauthorized)
        else (Issue(c, s.(tokens := s.tokens[presented.value := t.(revoked := true)]), t.user, t.family, id, jti),
            Issued(jti))
    case Logout(u, presented) =>
      if presented.None? || presented.value !in s.tokens || s.tokens[presented.value].user != u then (s, Completed)
      else (SignOut(c, s, s.tokens[presented.value].family), Completed)
    case RevokeSession(u, f) =>
      if f !in ActiveFamilies(s.tokens, u, s.now) then (s, NoSuchSession) else (SignOut(c, s, f), Completed)
    case ChangePassword(u) => (SignOutUser(c, s, u), Completed)
    case ResetPassword(u) => (SignOutUser(c, s, u), Completed)
    case SetSuspended(u, b) => (s.(users := s.users[u := b]), Completed)
    case Tick(dt) => (s.(now := s.now + dt), Completed)
  }

  ghost predicate Valid(c: Config, s: State, run: seq<Command>)
    decreases |run|
  {
    run == [] || (Enabled(s, run[0]) && Valid(c, Execute(c, s, run[0]).0, run[1..]))
  }

  function Exec(c: Config, s: State, run: seq<Command>): State
    requires Valid(c, s, run)
    decreases |run|
  {
    if run == [] then s else Exec(c, Execute(c, s, run[0]).0, run[1..])
  }

  /** The cache answers that j is denied. */
  predicate Denied(c: Config, s: State, j: Jti) {
    Perform(c.driver, s.cache, s.now, Get(DenyKey(j))).1.Found?
  }

  /** authenticator.Authenticate on an access token handed out earlier. */
  predicate Authenticates(c: Config, s: State, j: Jti)
    requires j in s.issued
  {
    && s.now < s.issued[j].exp * SECOND
    && !Denied(c, s, j)
    && MayLogin(s, s.issued[j].user)
  }

  // ---------------------------------------------------------------------------
  // What every run keeps
  // ---------------------------------------------------------------------------

  /** The denylist entry outlives the access token. */
  predicate Outlives(c: Config, it: Item, exp: int) {
    it.expiry.None? || exp * SECOND <= Deadline(c.driver, it.expiry.value)
  }

  predicate HasRow(s: State, j: Jti) { exists t :: t in s.tokens && s.tokens[t].jti == j }

  predicate HasFamily(s: State, f: FamilyId) { exists t :: t in s.tokens && s.tokens[t].family == f }

  predicate IsDenyKey(s: State, k: string) { exists j :: j in s.issued && k == DenyKey(j) }

  /** Rows and handed-out access tokens correspond, family by family. */
  predicate RowsOk(s: State) {
    && (forall t | t in s.tokens :: s.tokens[t].jti in s.issued && s.tokens[t].jti != ""
                                    && s.issued[s.tokens[t].jti].user == s.tokens[t].user
                                    && s.issued[s.tokens[t].jti].family == s.tokens[t].family)
    && (forall j {:trigger HasRow(s, j)} | j in s.issued :: HasRow(s, j))
    && (forall t, v | t in s.tokens && v in s.tokens && s.tokens[t].family == s.tokens[v].family ::
        s.tokens[t].user == s.tokens[v].user)
  }

  /** Signed-out families are entirely revoked; any other has at most one live row. */
  predicate FamiliesOk(s: State) {
    && (forall t | t in s.tokens && s.tokens[t].family in s.signedOut :: s.tokens[t].revoked)
    && (forall t, v | t in s.tokens && v in s.tokens && s.tokens[t].family == s.tokens[v].family
                      && !s.tokens[t].revoked && !s.tokens[v].revoked :: t == v)
    && (forall f {:trigger HasFamily(s, f)} | f in s.signedOut :: HasFamily(s, f))
  }

  /** A handed-out access token is on the denylist exactly when its family is signed out. */
  predicate DenialOk(c: Config, s: State, j: Jti)
    requires j in s.issued
  {
    && s.issued[j].exp <= Unix(s.now + c.accessTtl)
    && (s.issued[j].family in s.signedOut ==>
          DenyKey(j) in s.cache && Outlives(c, s.cache[DenyKey(j)], s.issued[j].exp))
    && (DenyKey(j) in s.cache ==> s.issued[j].family in s.signedOut)
  }

  predicate Inv(c: Config, s: State) {
    RowsOk(s) && FamiliesOk(s)
    && (forall j {:trigger DenialOk(c, s, j)} | j in s.issued :: DenialOk(c, s, j))
    && (forall k {:trigger IsDenyKey(s, k)} | k in s.cache :: IsDenyKey(s, k))
  }

  /** Whichever driver stores it, an entry set now lasts as long as any token issued by now. */
  lemma DenyItemOutlives(c: Config, now: int, exp: int)
    requires Sound(c) && exp <= Unix(now + c.accessTtl)
    ensures Outlives(c, DenyItem(c, now), exp)
  {
  }

  lemma DeniedInAt(c: Config, cache: Items, now: int, jtis: set<Jti>, j: Jti)
    requires j != ""
    ensures var cache' := DeniedIn(c, cache, now, jtis);
            && (j in jtis ==> DenyKey(j) in cache' && cache'[DenyKey(j)] == DenyItem(c, now))
            && (j !in jtis ==> (DenyKey(j) in cache' <==> DenyKey(j) in cache))
            && (j !in jtis && DenyKey(j) in cache ==> cache'[DenyKey(j)] == cache[DenyKey(j)])
  {
    if DenyKey(j) in DenyKeys(jtis) {
      var i :| i in jtis && i != "" && DenyKey(i) == DenyKey(j);
      DenyKeyInjective(i, j);
    }
  }

  /** s' is s with a set of families signed out: jtis are exactly those of their rows. */
  predicate SignsOutSet(c: Config, s: State, s': State, families: set<FamilyId>, jtis: set<Jti>) {
    && (forall t | t in s.tokens :: s.tokens[t].jti in jtis <==> s.tokens[t].family in families)
    && (forall j {:trigger HasRow(s, j)} | j in jtis :: HasRow(s, j))
    && (forall f {:trigger HasFamily(s, f)} | f in families :: HasFamily(s, f))
    && s'.tokens.Keys == s.tokens.Keys
    && (forall t | t in s.tokens ::
          s'.tokens[t] == if s.tokens[t].family in families then s.tokens[t].(revoked := true) else s.tokens[t])
    && s' == s.(tokens := s'.tokens, cache := DeniedIn(c, s.cache, s.now, jtis), signedOut := s.signedOut + families)
  }

  lemma SignOutKeepsRows(c: Config, s: State, s': State, families: set<FamilyId>, jtis: set<Jti>)
    requires RowsOk(s) && SignsOutSet(c, s, s', families, jtis)
    ensures RowsOk(s')
  {
    forall t | t in s.tokens
      ensures s'.tokens[t].jti == s.tokens[t].jti && s'.tokens[t].user == s.tokens[t].user
      ensures s'.tokens[t].family == s.tokens[t].family
    {
    }
    forall j | j in s'.issued ensures HasRow(s', j) {
      assert HasRow(s, j);
      var t :| t in s.tokens && s.tokens[t].jti == j;
      assert t in s'.tokens && s'.tokens[t].jti == j;
    }
  }

  lemma SignOutKeepsFamilies(c: Config, s: State, s': State, families: set<FamilyId>, jtis: set<Jti>)
    requires FamiliesOk(s) && SignsOutSet(c, s, s', families, jtis)
    ensures FamiliesOk(s')
  {
    forall t | t in s.tokens
      ensures s'.tokens[t].family == s.tokens[t].family && (s.tokens[t].revoked ==> s'.tokens[t].revoked)
    {
    }
    forall f | f in s'.signedOut ensures HasFamily(s', f) {
      assert HasFamily(s, f);
      var t :| t in s.tokens && s.tokens[t].family == f;
      assert t in s'.tokens && s'.tokens[t].family == f;
    }
  }

  lemma SignOutDenies(c: Config, s: State, s': State, families: set<FamilyId>, jtis: set<Jti>, j: Jti)
    requires Sound(c) && RowsOk(s) && SignsOutSet(c, s, s', families, jtis)
    requires j in s.issued && DenialOk(c, s, j)
    ensures DenialOk(c, s', j)
  {
    assert HasRow(s, j);
    var t :| t in s.tokens && s.tokens[t].jti == j;
    DeniedInAt(c, s.cache, s.now, jtis, j);
    DenyItemOutlives(c, s.now, s.issued[j].exp);
  }

  lemma SignOutSetKeepsInv(c: Config, s: State, s': State, families: set<FamilyId>, jtis: set<Jti>)
    requires Sound(c) && Inv(c, s) && SignsOutSet(c, s, s', families, jtis)
    ensures Inv(c, s')
  {
    SignOutKeepsRows(c, s, s', families, jtis);
    SignOutKeepsFamilies(c, s, s', families, jtis);
    forall j | j in s'.issued ensures DenialOk(c, s', j) {
      SignOutDenies(c, s, s', families, jtis, j);
    }
    forall k | k in s'.cache ensures IsDenyKey(s', k) {
      if k in DenyKeys(jtis) {
        var j :| j in jtis && k == DenyKey(j);
        assert HasRow(s, j);
        var t :| t in s.tokens && s.tokens[t].jti == j;
        assert j in s'.issued;
      } else {
        assert IsDenyKey(s, k);
      }
    }
  }

  lemma SignOutKeepsInv(c: Config, s: State, f: FamilyId)
    requires Sound(c) && Inv(c, s) && HasFamily(s, f)
    ensures Inv(c, SignOut(c, s, f))
  {
    var jtis := JtisByFamily(s.tokens, f);
    forall t | t in s.tokens ensures s.tokens[t].jti in jtis <==> s.tokens[t].family in {f} {
      if s.tokens[t].jti in jtis {
        var v :| v in s.tokens && s.tokens[v].family == f && s.tokens[v].jti == s.tokens[t].jti;
      }
    }
    SignOutSetKeepsInv(c, s, SignOut(c, s, f), {f}, jtis);
  }

  lemma SignOutUserKeepsInv(c: Config, s: State, u: UserId)
    requires Sound(c) && Inv(c, s)
    ensures Inv(c, SignOutUser(c, s, u))
  {
    var jtis, families := JtisByUser(s.tokens, u), FamiliesOf(s.tokens, u);
    forall t | t in s.tokens
      ensures s.tokens[t].user == u <==> s.tokens[t].family in families
      ensures s.tokens[t].jti in jtis <==> s.tokens[t].user == u
    {
      if s.tokens[t].jti in jtis {
        var v :| v in s.tokens && s.tokens[v].user == u && s.tokens[v].jti == s.tokens[t].jti;
      }
      if s.tokens[t].family in families {
        var v :| v in s.tokens && s.tokens[v].user == u && s.tokens[v].family == s.tokens[t].family;
      }
    }
    SignOutSetKeepsInv(c, s, SignOutUser(c, s, u), families, jtis);
  }
}
