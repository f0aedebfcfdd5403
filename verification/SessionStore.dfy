/** The session commands as the source runs them: statement by statement over the store. */
module SessionStore {
  import opened Common
  import opened Sequences
  import opened Clock
  import opened CacheDrivers
  import opened Sessions

  class AuthService {
    const c: Config
    var users: map<UserId, bool>
    var tokens: map<TokenId, Token>
    var cache: Items
    ghost var issued: map<Jti, Access>
    ghost var signedOut: set<FamilyId>

    constructor (c: Config)
      ensures this.c == c && At(0) == Init
    {
      this.c := c;
      users, tokens, cache, issued, signedOut := map[], map[], map[], map[], {};
    }

    /** The whole state as of an instant. */
    ghost function At(now: int): State
      reads this
    {
      State(now, users, tokens, cache, issued, signedOut)
    }

    /** The denylist loop: one cache write per non-empty id. */
    method Deny(jtis: seq<Jti>, now: int)
      modifies this`cache
      ensures cache == DeniedIn(c, old(cache), now, Elements(jtis))
    {
      for i := 0 to |jtis|
        invariant cache == DeniedIn(c, old(cache), now, Elements(jtis[..i]))
      {
        var j := jtis[i];
        assert jtis[..i + 1] == jtis[..i] + [j];
        ElementsSnoc(jtis[..i], j);
        DeniedInSnoc(c, old(cache), now, Elements(jtis[..i]), j);
        if j == "" {
          continue;
        }
        cache := Perform(c.driver, cache, now, Op.Set(DenyKey(j), "1", c.accessTtl)).0;
      }
      assert jtis[..|jtis|] == jtis;
    }

    /** Deny first, then revoke the rows: the order of every sign-out path. */
    method SignOutFamily(f: FamilyId, now: int)
      modifies this`cache, this`tokens, this`signedOut
      ensures At(now) == SignOut(c, old(At(now)), f)
    {
      var jtis := Listing(JtisByFamily(tokens, f));
      Deny(jtis, now);
      tokens := FamilyRevoked(tokens, f);
      signedOut := signedOut + {f};
    }

    /** The eviction loop over the families the query listed. */
    method EnforceSessionCap(families: seq<FamilyId>, now: int)
      modifies this`cache, this`tokens, this`signedOut
      ensures At(now) == SignOutAll(c, old(At(now)), families[..Excess(c, |families|)])
    {
      if c.maxSessions <= 0 {
        return;
      }
      var excess := |families| - (c.maxSessions - 1);
      var i := 0;
      while i < |families|
        invariant 0 <= i <= |families| && i + excess == |families| - (c.maxSessions - 1)
        invariant i <= Excess(c, |families|)
        invariant At(now) == SignOutAll(c, old(At(now)), families[..i])
      {
        if excess <= 0 {
          break;
        }
        assert families[..i + 1][..i] == families[..i];
        SignOutFamily(families[i], now);
        excess := excess - 1;
        i := i + 1;
      }
      assert i == Excess(c, |families|);
    }

    /** Mints a pair; without a family it opens one and enforces the cap first. */
    method IssueInFamily(u: UserId, family: Option<FamilyId>, newFamily: FamilyId, listing: seq<FamilyId>,
                         id: TokenId, jti: Jti, now: int)
      modifies this`cache, this`tokens, this`signedOut, this`issued
      ensures family.Some? ==> At(now) == Issue(c, old(At(now)), u, family.value, id, jti)
      ensures family.None? ==>
                At(now) == Issue(c, SignOutAll(c, old(At(now)), listing[..Excess(c, |listing|)]), u, newFamily, id, jti)
    {
      var f := if family.Some? then family.value else newFamily;
      if family.None? {
        EnforceSessionCap(listing, now);
      }
      tokens := tokens[id := Token(u, f, jti, now + c.refreshTtl, false, now)];
      issued := issued[jti := Access(u, f, Unix(now + c.accessTtl))];
    }

    method Login(u: UserId, id: TokenId, family: FamilyId, jti: Jti, listing: seq<FamilyId>, now: int)
      returns (result: Result)
      requires Enabled(At(now), Command.Login(u, id, family, jti, listing))
      modifies this`cache, this`tokens, this`signedOut, this`issued
      ensures (At(now), result) == Execute(c, old(At(now)), Command.Login(u, id, family, jti, listing))
    {
      if u !in users || users[u] {
        return Unauthorized;
      }
      IssueInFamily(u, None, family, listing, id, jti, now);
      return Issued(jti);
    }

    /** The compare-and-set behind rotation. */
    method RevokeByIdIfActive(id: TokenId) returns (active: bool)
      modifies this`tokens
      ensures active <==> id in old(tokens) && !old(tokens)[id].revoked
      ensures tokens == if active then old(tokens)[id := old(tokens)[id].(revoked := true)] else old(tokens)
    {
      active := id in tokens && !tokens[id].revoked;
      if active {
        tokens := tokens[id := tokens[id].(revoked := true)];
      }
    }

    /**
     The rest of a refresh once the token it read passed its checks; the rows may have moved
     on since. A lost compare-and-set is treated as reuse.
     */
    method Rotate(presented: TokenId, read: Token, id: TokenId, jti: Jti, now: int) returns (result: Result)
      modifies this`cache, this`tokens, this`signedOut, this`issued
      ensures presented in old(tokens) && !old(tokens)[presented].revoked ==>
                && result == Issued(jti)
                && var s := old(At(now));
                   At(now) == Issue(c, s.(tokens := s.tokens[presented := s.tokens[presented].(revoked := true)]),
                                    read.user, read.family, id, jti)
      ensures !(presented in old(tokens) && !old(tokens)[presented].revoked) ==>
                result == Unauthorized && At(now) == SignOut(c, old(At(now)), read.family)
    {
      var active := RevokeByIdIfActive(presented);
      if !active {
        SignOutFamily(read.family, now);
        return Unauthorized;
      }
      IssueInFamily(read.user, Some(read.family), read.family, [], id, jti, now);
      return Issued(jti);
    }

    method Refresh(presented: Option<TokenId>, id: TokenId, jti: Jti, now: int) returns (result: Result)
      requires Enabled(At(now), Command.Refresh(presented, id, jti))
      modifies this`cache, this`tokens, this`signedOut, this`issued
      ensures (At(now), result) == Execute(c, old(At(now)), Command.Refresh(presented, id, jti))
    {
      if presented.None? || presented.value !in tokens {
        return Unauthorized;
      }
      var t := tokens[presented.value];
      if t.revoked {
        SignOutFamily(t.family, now);
        return Unauthorized;
      }
      if now > t.expiresAt {
        return Unauthorized;
      }
      if t.user !in users || users[t.user] {
        return Unauthorized;
      }
      result := Rotate(presented.value, t, id, jti, now);
    }

    method Logout(u: UserId, presented: Option<TokenId>, now: int) returns (result: Result)
      modifies this`cache, this`tokens, this`signedOut
      ensures (At(now), result) == Execute(c, old(At(now)), Command.Logout(u, presented))
    {
      if presented.None? || presented.value !in tokens || tokens[presented.value].user != u {
        return Completed;
      }
      SignOutFamily(tokens[presented.value].family, now);
      return Completed;
    }

    /** Looks the family up among the caller's active ones before touching anything. */
    method RevokeSession(u: UserId, f: FamilyId, families: seq<FamilyId>, now: int) returns (result: Result)
      requires IsListing(tokens, u, now, families)
      modifies this`cache, this`tokens, this`signedOut
      ensures (At(now), result) == Execute(c, old(At(now)), Command.RevokeSession(u, f))
    {
      var found := false;
      for i := 0 to |families|
        invariant !found && f !in families[..i]
      {
        if families[i] == f {
          found := true;
          break;
        }
      }
      assert found <==> f in Elements(families);
      if !found {
        return NoSuchSession;
      }
      SignOutFamily(f, now);
      return Completed;
    }

    /** What a password change or reset does once it has gone through. */
    method SignOutEverywhere(u: UserId, now: int)
      modifies this`cache, this`tokens, this`signedOut
      ensures At(now) == SignOutUser(c, old(At(now)), u)
    {
      signedOut := signedOut + FamiliesOf(tokens, u);
      var jtis := Listing(JtisByUser(tokens, u));
      Deny(jtis, now);
      tokens := UserRevoked(tokens, u);
    }
  }

  lemma DenySets(c: Config, cache: Items, now: int, j: Jti)
    ensures Perform(c.driver, cache, now, Op.Set(DenyKey(j), "1", c.accessTtl)).0
        == cache[DenyKey(j) := DenyItem(c, now)]
  {
  }

  lemma DeniedInOneMore(c: Config, cache: Items, now: int, jtis: set<Jti>, j: Jti)
    ensures DeniedIn(c, cache, now, jtis + {j}) ==
              if j == "" then DeniedIn(c, cache, now, jtis)
                  else DeniedIn(c, cache, now, jtis)[DenyKey(j) := DenyItem(c, now)]
  {
    assert DenyKeys(jtis + {j}) == if j == "" then DenyKeys(jtis) else DenyKeys(jtis) + {DenyKey(j)};
  }

  lemma DeniedInSnoc(c: Config, cache: Items, now: int, jtis: set<Jti>, j: Jti)
    ensures DeniedIn(c, cache, now, jtis + {j}) ==
              if j == "" then DeniedIn(c, cache, now, jtis)
              else Perform(c.driver, DeniedIn(c, cache, now, jtis), now, Op.Set(DenyKey(j), "1", c.accessTtl)).0
  {
    DenySets(c, DeniedIn(c, cache, now, jtis), now, j);
    DeniedInOneMore(c, cache, now, jtis, j);
  }
}
