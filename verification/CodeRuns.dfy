/** Codes and links stay good until they are used, replaced or expired, over serial runs. */
module CodeRuns {
  import opened Codes

  /** The command uses the code up: by a right guess in time, a redemption, or a successor. */
  predicate Uses(t: Table, max: int, c: Command, id: CodeId)
    requires id in t
  {
    match c
    case Guess(i, raw, now) =>
      i == id && raw == t[id].secret && now <= t[id].expiresAt && t[id].attempts < max
    case Redeem(i) => i == id
    case IssueCode(_, user, channel, purpose, _, _) =>
      t[id].user == user && t[id].purpose == purpose && t[id].channel == channel
    case ForgotPassword(_, user, _, _, _) => t[id].user == user && t[id].purpose == Reset
    case SendMagicLink(_, user, _, _) => t[id].user == user && t[id].purpose == MagicLink
  }

  /** A wrong guess that is counted. */
  predicate Misses(t: Table, max: int, c: Command, id: CodeId)
    requires id in t
  {
    && c.Guess? && c.id == id && c.raw != t[id].secret
    && !t[id].consumed && c.now <= t[id].expiresAt && t[id].attempts < max
  }

  predicate UsedIn(t: Table, max: int, run: seq<Command>, id: CodeId)
    requires id in t && LegalRun(t, max, run)
    decreases |run|
  {
    run != [] &&
    (Uses(t, max, run[0], id)
     || (id in Executed(t, max, run[0]) && UsedIn(Executed(t, max, run[0]), max, run[1..], id)))
  }

  function MissesIn(t: Table, max: int, run: seq<Command>, id: CodeId): nat
    requires id in t && LegalRun(t, max, run)
    decreases |run|
  {
    if run == [] then 0
    else
      (if Misses(t, max, run[0], id) then 1 else 0)
      + if id in Executed(t, max, run[0]) then MissesIn(Executed(t, max, run[0]), max, run[1..], id) else 0
  }

  lemma CodeAfter(t: Table, max: int, c: Command, id: CodeId)
    requires Legal(t, c) && id in t
    ensures var t' := Executed(t, max, c);
            && id in t'
            && t'[id] == t[id].(consumed := t[id].consumed || Uses(t, max, c, id),
                                attempts := t[id].attempts + if Misses(t, max, c, id) then 1 else 0)
  {
  }

  /** A row over a run: the mark says whether it was used up, the counter how often it was missed. */
  lemma {:induction false} CodeAfterRun(t: Table, max: int, run: seq<Command>, id: CodeId)
    requires LegalRun(t, max, run) && id in t
    ensures var t' := ExecutedAll(t, max, run);
            && id in t'
            && t'[id] == t[id].(consumed := t[id].consumed || UsedIn(t, max, run, id),
                                attempts := t[id].attempts + MissesIn(t, max, run, id))
    decreases |run|
  {
    if run != [] {
      CodeAfter(t, max, run[0], id);
      CodeAfterRun(Executed(t, max, run[0]), max, run[1..], id);
    }
  }

  /**
   A link sent to a user opens until it expires, if and only if it has not been redeemed and
   no newer link has been sent to that user, whatever else has been issued or guessed.
   */
  lemma LinkOpensIff(t: Table, max: int, id: CodeId, user: UserId, secret: string, expiresAt: int,
                     run: seq<Command>, now: int)
    requires id !in t && LegalRun(Executed(t, max, SendMagicLink(id, user, secret, expiresAt)), max, run)
    ensures var t1 := Executed(t, max, SendMagicLink(id, user, secret, expiresAt));
            var t2 := ExecutedAll(t1, max, run);
            && id in t1 && id in t2
            && (id in Opened(t2, secret, now) <==> !UsedIn(t1, max, run, id) && now < expiresAt)
            && (id in Opened(t2, secret, now) ==>
                  && JudgedLink(t2[id], now) == Accepted
                  && SettledLink(t2, id) == (t2[id := t2[id].(consumed := true)], Accepted))
  {
    CodeAfterRun(Executed(t, max, SendMagicLink(id, user, secret, expiresAt)), max, run, id);
  }

  /**
   A code issued to a user is accepted until it expires, if and only if it has not been used,
   it has not been replaced by a newer one, and fewer than max guesses at it have been wrong.
   */
  lemma CodeAcceptedIff(t: Table, max: int, c: Command, run: seq<Command>, now: int)
    requires (c.IssueCode? || c.ForgotPassword?) && Legal(t, c) && LegalRun(Executed(t, max, c), max, run)
    ensures var t1 := Executed(t, max, c);
            var t2 := ExecutedAll(t1, max, run);
            && c.id in t1 && c.id in t2
            && (Validated(t2, max, c.id, t2[c.id], c.secret, now).1 == Accepted <==>
                  !UsedIn(t1, max, run, c.id) && now <= c.expiresAt && MissesIn(t1, max, run, c.id) < max)
  {
    CodeAfterRun(Executed(t, max, c), max, run, c.id);
  }
}
