/**
 Verification codes and magic links: the SQL statements on their table
 (internal/modules/auth/infrastructure/repository.go) and the use cases that
 issue and redeem them one call at a time.
 */
module Codes {
  import opened Common
  import opened Text

  type CodeId = nat
  type UserId = nat

  datatype Channel = Email | Phone
  datatype Purpose = Verify | VerifyOld | Reset | MagicLink

  /** A row; secret stands for its hash, which is taken to be injective. */
  datatype Code = Code(user: UserId, channel: Channel, purpose: Purpose, secret: string,
                       attempts: nat, expiresAt: int, consumed: bool)

  type Table = map<CodeId, Code>

  datatype Verdict = Accepted | Invalid | CodeExpired | TooManyAttempts | NotFound | Unauthorized

  predicate Active(t: Table, id: CodeId, now: int) {
    id in t && !t[id].consumed && t[id].expiresAt > now
  }

  function Spend(t: Table, id: CodeId): Table {
    if id in t then t[id := t[id].(consumed := true)] else t
  }

  function Bump(t: Table, id: CodeId): Table {
    if id in t then t[id := t[id].(attempts := t[id].attempts + 1)] else t
  }

  /** No channel means every channel of the user and purpose. */
  predicate InScope(code: Code, user: UserId, purpose: Purpose, channel: Option<Channel>) {
    code.user == user && code.purpose == purpose && (channel.Some? ==> code.channel == channel.value)
  }

  function Invalidated(t: Table, user: UserId, purpose: Purpose, channel: Option<Channel>): Table {
    map id | id in t :: if InScope(t[id], user, purpose, channel) then t[id].(consumed := true) else t[id]
  }

  /** The checks of validateCode that need no statement, on the row it read; Accepted lets it go on. */
  function Judged(max: int, read: Code, now: int): Verdict {
    if read.consumed then Invalid
    else if now > read.expiresAt then CodeExpired
    else if read.attempts >= max then TooManyAttempts
    else Accepted
  }

  /** The one statement that follows: the table may have moved on since the row was read. */
  function Settled(t: Table, max: int, id: CodeId, read: Code, raw: string): (Table, Verdict) {
    if raw != read.secret then
      if id in t && t[id].attempts < max then (Bump(t, id), Invalid) else (t, TooManyAttempts)
    else if id in t && !t[id].consumed then (Spend(t, id), Accepted)
    else (t, Invalid)
  }

  function Validated(t: Table, max: int, id: CodeId, read: Code, raw: string, now: int): (Table, Verdict) {
    var verdict := Judged(max, read, now);
    if verdict.Accepted? then Settled(t, max, id, read, raw) else (t, verdict)
  }

  /** The checks of a magic link on the row found by its hash; attempts do not count. */
  function JudgedLink(read: Code, now: int): Verdict {
    if read.consumed then NotFound else if now > read.expiresAt then CodeExpired else Accepted
  }

  /** Consuming a link, which another request may have done first. */
  function SettledLink(t: Table, id: CodeId): (Table, Verdict) {
    if id in t && !t[id].consumed then (Spend(t, id), Accepted) else (t, NotFound)
  }

  /** What a magic link opens: the rows FindActiveByHash selects from. */
  function Opened(t: Table, token: string, now: int): set<CodeId> {
    set id | id in t && Active(t, id, now) && t[id].purpose == MagicLink && t[id].secret == token
  }

  // ---- whole histories of calls, one after the other ----

  datatype Command =
    | IssueCode(id: CodeId, user: UserId, channel: Channel, purpose: Purpose, secret: string, expiresAt: int)
    | ForgotPassword(id: CodeId, user: UserId, channel: Channel, secret: string, expiresAt: int)
    | SendMagicLink(id: CodeId, user: UserId, secret: string, expiresAt: int)
    | Guess(id: CodeId, raw: string, now: int)
    | Redeem(id: CodeId)

  function Executed(t: Table, max: int, c: Command): Table {
    match c
    case IssueCode(id, user, channel, purpose, secret, expiresAt) =>
      Invalidated(t, user, purpose, Some(channel))[id := Code(user, channel, purpose, secret, 0, expiresAt, false)]
    case ForgotPassword(id, user, channel, secret, expiresAt) =>
      Invalidated(t, user, Reset, None)[id := Code(user, channel, Reset, secret, 0, expiresAt, false)]
    case SendMagicLink(id, user, secret, expiresAt) =>
      Invalidated(t, user, MagicLink, None)[id := Code(user, Email, MagicLink, secret, 0, expiresAt, false)]
    case Guess(id, raw, now) => if id in t then Validated(t, max, id, t[id], raw, now).0 else t
    case Redeem(id) => Spend(t, id)
  }

  /** New rows get new ids; issueCode serves the two contact purposes only. */
  predicate Legal(t: Table, c: Command) {
    match c
    case IssueCode(id, _, _, purpose, _, _) => id !in t && (purpose.Verify? || purpose.VerifyOld?)
    case ForgotPassword(id, _, _, _, _) => id !in t
    case SendMagicLink(id, _, _, _) => id !in t
    case _ => true
  }

  predicate LegalRun(t: Table, max: int, run: seq<Command>)
    decreases |run|
  {
    run == [] || (Legal(t, run[0]) && LegalRun(Executed(t, max, run[0]), max, run[1..]))
  }

  function ExecutedAll(t: Table, max: int, run: seq<Command>): Table
    decreases |run|
  {
    if run == [] then t else ExecutedAll(Executed(t, max, run[0]), max, run[1..])
  }

  /** Codes that compete: same user and purpose, and same channel unless the purpose spans channels. */
  predicate Rival(a: Code, b: Code) {
    a.user == b.user && a.purpose == b.purpose && (a.channel == b.channel || a.purpose.Reset? || a.purpose.MagicLink?)
  }

  predicate OneActive(t: Table) {
    forall a, b | a in t && b in t && !t[a].consumed && !t[b].consumed && Rival(t[a], t[b]) :: a == b
  }

  lemma CommandKeepsOneActive(t: Table, max: int, c: Command)
    requires OneActive(t) && Legal(t, c)
    ensures OneActive(Executed(t, max, c))
  {
    var t' := Executed(t, max, c);
    forall a, b | a in t' && b in t' && !t'[a].consumed && !t'[b].consumed && Rival(t'[a], t'[b]) ensures a == b {
      assert (a in t && b in t && Rival(t[a], t[b])) || a !in t || b !in t;
    }
  }

  lemma {:induction false} SerialRunsKeepOneActive(t: Table, max: int, run: seq<Command>)
    requires OneActive(t) && LegalRun(t, max, run)
    ensures OneActive(ExecutedAll(t, max, run))
    decreases |run|
  {
    if run != [] {
      CommandKeepsOneActive(t, max, run[0]);
      SerialRunsKeepOneActive(Executed(t, max, run[0]), max, run[1..]);
    }
  }

  /** Saving a code keeps at most one active per scope exactly when its scope has none left. */
  lemma SaveKeepsOneActiveIff(t: Table, id: CodeId, code: Code)
    requires OneActive(t) && id !in t && !code.consumed
    ensures OneActive(t[id := code]) <==> forall o | o in t && Rival(t[o], code) :: t[o].consumed
  {
    var t' := t[id := code];
    if OneActive(t') {
      forall o | o in t && Rival(t[o], code) ensures t[o].consumed {
        assert o in t' && t'[o] == t[o] && t'[id] == code;
      }
    }
  }

  /** after is before with the given rows marked and one row added. */
  predicate Replaces(before: Table, after: Table, id: CodeId, code: Code, marked: set<CodeId>) {
    && id !in before && after.Keys == before.Keys + {id} && after[id] == code
    && forall k | k in before :: after[k] == before[k].(consumed := before[k].consumed || k in marked)
  }

  /** A wrong guess at a code that was good when it was read, with attempts left. */
  predicate Missed(t: Table, max: int, id: CodeId, read: Code, raw: string, now: int) {
    && !read.consumed && now <= read.expiresAt && read.attempts < max && raw != read.secret
    && id in t && t[id].attempts < max
  }

  class VerificationCodes {
    var codes: Table
    const maxAttempts: int

    constructor (maxAttempts: int)
      ensures codes == map[] && this.maxAttempts == maxAttempts
    {
      codes := map[];
      this.maxAttempts := maxAttempts;
    }

    method Save(id: CodeId, code: Code)
      requires id !in codes
      modifies this
      ensures codes == old(codes)[id := code]
    {
      codes := codes[id := code];
    }

    method Consume(id: CodeId) returns (ok: bool)
      modifies this
      ensures ok == (id in old(codes) && !old(codes)[id].consumed)
      ensures codes == if ok then Spend(old(codes), id) else old(codes)
    {
      ok := id in codes && !codes[id].consumed;
      if ok {
        codes := codes[id := codes[id].(consumed := true)];
      }
    }

    method IncrementAttempts(id: CodeId) returns (ok: bool)
      modifies this
      ensures ok == (id in old(codes) && old(codes)[id].attempts < maxAttempts)
      ensures codes == if ok then Bump(old(codes), id) else old(codes)
    {
      ok := id in codes && codes[id].attempts < maxAttempts;
      if ok {
        codes := codes[id := codes[id].(attempts := codes[id].attempts + 1)];
      }
    }

    method Invalidate(user: UserId, purpose: Purpose, channel: Option<Channel>)
      modifies this
      ensures codes == Invalidated(old(codes), user, purpose, channel)
    {
      codes := map id | id in codes :: if InScope(codes[id], user, purpose, channel)
          then codes[id].(consumed := true) else codes[id];
    }

    method IssueCode(id: CodeId, user: UserId, channel: Channel, purpose: Purpose, raw: string, ttl: int, now: int)
      requires id !in codes
      modifies this
      ensures codes == Executed(old(codes), maxAttempts, Command.IssueCode(id, user, channel, purpose, raw, now + ttl))
      ensures Replaces(old(codes), codes, id, Code(user, channel, purpose, raw, 0, now + ttl, false),
                       set k | k in old(codes) && old(codes)[k].user == user && old(codes)[k].purpose == purpose
                               && old(codes)[k].channel == channel)
    {
      Invalidate(user, purpose, Some(channel));
      Save(id, Code(user, channel, purpose, raw, 0, now + ttl, false));
    }

    method ProcessForgotPassword(id: CodeId, user: Option<UserId>, channel: Channel, raw: string, ttl: int, now: int)
      requires id !in codes
      modifies this
      ensures user.None? ==> codes == old(codes)
      ensures user.Some? ==>
                codes == Executed(old(codes), maxAttempts, ForgotPassword(id, user.value, channel, raw, now + ttl))
      ensures user.Some? ==>
                Replaces(old(codes), codes, id, Code(user.value, channel, Reset, raw, 0, now + ttl, false),
                         set k | k in old(codes) && old(codes)[k].user == user.value && old(codes)[k].purpose == Reset)
    {
      if user.None? { return; }
      Invalidate(user.value, Reset, None);
      Save(id, Code(user.value, channel, Reset, raw, 0, now + ttl, false));
    }

    method ProcessMagicLink(id: CodeId, user: Option<UserId>, raw: string, ttl: int, now: int)
      requires id !in codes
      modifies this
      ensures user.None? ==> codes == old(codes)
      ensures user.Some? ==> codes == Executed(old(codes), maxAttempts, SendMagicLink(id, user.value, raw, now + ttl))
      ensures user.Some? ==>
                Replaces(old(codes), codes, id, Code(user.value, Email, MagicLink, raw, 0, now + ttl, false),
                         set k | k in old(codes) && old(codes)[k].user == user.value
                                 && old(codes)[k].purpose == MagicLink)
    {
      if user.None? { return; }
      Invalidate(user.value, MagicLink, None);
      Save(id, Code(user.value, Email, MagicLink, raw, 0, now + ttl, false));
    }

    /** validateCode; read is the row the caller fetched, if any. */
    method ValidateCode(read: Option<(CodeId, Code)>, raw: string, now: int) returns (verdict: Verdict)
      modifies this
      ensures read.None? ==> verdict == Invalid && codes == old(codes)
      ensures read.Some? ==>
                (codes, verdict) == Validated(old(codes), maxAttempts, read.value.0, read.value.1, raw, now)
      ensures verdict.Accepted? <==>
                && read.Some?
                && var (id, code) := read.value;
                   && !code.consumed && now <= code.expiresAt && code.attempts < maxAttempts && raw == code.secret
                   && id in old(codes) && !old(codes)[id].consumed
      ensures verdict.Accepted? ==>
                var id := read.value.0;
                codes == old(codes)[id := old(codes)[id].(consumed := true)]
      ensures !verdict.Accepted? ==>
                || codes == old(codes)
                || (verdict.Invalid? && read.Some?
                    && Missed(old(codes), maxAttempts, read.value.0, read.value.1, raw, now))
      ensures verdict.CodeExpired? <==> read.Some? && !read.value.1.consumed && now > read.value.1.expiresAt
      ensures read.Some? && Missed(old(codes), maxAttempts, read.value.0, read.value.1, raw, now) ==>
                var id := read.value.0;
                codes == old(codes)[id := old(codes)[id].(attempts := old(codes)[id].attempts + 1)]
    {
      if read.None? { return Invalid; }
      var (id, code) := read.value;
      if code.consumed { return Invalid; }
      if now > code.expiresAt { return CodeExpired; }
      if code.attempts >= maxAttempts { return TooManyAttempts; }
      if raw != code.secret {
        var counted := IncrementAttempts(id);
        return if counted then Invalid else TooManyAttempts;
      }
      var ok := Consume(id);
      return if ok then Accepted else Invalid;
    }

    /** FindActiveByHash for a link; which of several matches is newest is left open. */
    method FindLink(token: string, now: int) returns (found: Option<(CodeId, Code)>)
      ensures found.None? <==> Opened(codes, token, now) == {}
      ensures found.Some? ==> found.value.0 in Opened(codes, token, now) && found.value.1 == codes[found.value.0]
      ensures found.Some? <==>
                exists id :: id in codes && !codes[id].consumed && now < codes[id].expiresAt
                             && codes[id].purpose == MagicLink && codes[id].secret == token
    {
      var ids := Opened(codes, token, now);
      assert forall id | id in codes && !codes[id].consumed && now < codes[id].expiresAt
                         && codes[id].purpose == MagicLink && codes[id].secret == token :: id in ids;
      if ids == {} { return None; }
      var id :| id in ids;
      return Some((id, codes[id]));
    }

    /** MagicLinkVerify from the lookup's result on; usable says the owner exists and is not
        suspended. The table may have moved on since the lookup. */
    method RedeemLink(cmd: string, found: Option<(CodeId, Code)>, usable: bool, now: int) returns (verdict: Verdict)
      modifies this
      ensures TrimSpace(cmd) == "" ==> verdict == Invalid
      ensures TrimSpace(cmd) != "" && found.None? ==> verdict == NotFound
      ensures TrimSpace(cmd) != "" && found.Some? ==>
                var judged := JudgedLink(found.value.1, now);
                if judged.Accepted? && usable then (codes, verdict) == SettledLink(old(codes), found.value.0)
                else verdict == (if judged.Accepted? then Unauthorized else judged) && codes == old(codes)
      ensures !verdict.Accepted? ==> codes == old(codes)
      ensures verdict.Accepted? <==>
                && TrimSpace(cmd) != "" && found.Some? && usable
                && var (id, code) := found.value;
                   !code.consumed && now <= code.expiresAt && id in old(codes) && !old(codes)[id].consumed
      ensures verdict.Accepted? ==>
                var id := found.value.0;
                codes == old(codes)[id := old(codes)[id].(consumed := true)]
    {
      var token := TrimSpace(cmd);
      if token == "" { return Invalid; }
      if found.None? { return NotFound; }
      var (id, code) := found.value;
      if code.consumed { return NotFound; }
      if now > code.expiresAt { return CodeExpired; }
      if !usable { return Unauthorized; }
      var ok := Consume(id);
      return if ok then Accepted else NotFound;
    }
  }
}

/**
 Any number of redemptions at once, each between its read, its checks against the
 clock, and its one statement.
 */
module CodeProtocol {
  import opened Common
  import opened Codes

  type ThreadId = nat

  /**
   A request that holds the row it read; a link request matched the row by its hash.
   Cleared: it passed its checks at the instant at, and only its statement is left.
   */
  datatype Attempt =
    | Reading(code: CodeId, read: Code, raw: string)
    | Cleared(code: CodeId, read: Code, raw: string, at: int)

  /** An accepted redemption and the instant of its checks. */
  datatype Win = Win(code: CodeId, raw: string, at: int)

  /** wins and misses are history: acceptances, and wrong guesses turned down as such. */
  datatype State = State(now: int, codes: Table, threads: map<ThreadId, Attempt>, wins: seq<Win>,
      misses: multiset<CodeId>)

  datatype Step =
    | Save(id: CodeId, code: Code)
    | Invalidate(user: UserId, purpose: Purpose, channel: Option<Channel>)
    | Read(th: ThreadId, id: CodeId, raw: string)
    | Judge(th: ThreadId)
    | Finish(th: ThreadId)
    | Abandon(th: ThreadId)
    | Tick(dt: nat)

  const Init := State(0, map[], map[], [], multiset{})

  predicate Enabled(s: State, e: Step) {
    match e
    case Save(id, code) => id !in s.codes && code.attempts == 0 && !code.consumed
    case Invalidate(_, _, _) => true
    case Read(th, id, raw) =>
      th !in s.threads && Active(s.codes, id, s.now) && (s.codes[id].purpose.MagicLink? ==> s.codes[id].secret == raw)
    case Judge(th) => th in s.threads && s.threads[th].Reading?
    case Finish(th) => th in s.threads && s.threads[th].Cleared?
    case Abandon(th) => th in s.threads
    case Tick(_) => true
  }

  function Verdicts(max: int, read: Code, now: int): Verdict {
    if read.purpose.MagicLink? then JudgedLink(read, now) else Judged(max, read, now)
  }

  function Outcome(max: int, t: Table, a: Attempt): (Table, Verdict) {
    if a.read.purpose.MagicLink? then SettledLink(t, a.code) else Settled(t, max, a.code, a.read, a.raw)
  }

  /** A wrong guess that was turned down as one, and not for lateness or for want of attempts. */
  predicate WrongGuess(a: Attempt, verdict: Verdict) {
    !a.read.purpose.MagicLink? && a.raw != a.read.secret && verdict.Invalid?
  }

  function Apply(max: int, s: State, e: Step): State
    requires Enabled(s, e)
  {
    match e
    case Save(id, code) => s.(codes := s.codes[id := code])
    case Invalidate(user, purpose, channel) => s.(codes := Invalidated(s.codes, user, purpose, channel))
    case Read(th, id, raw) => s.(threads := s.threads[th := Reading(id, s.codes[id], raw)])
    case Judge(th) =>
      var a := s.threads[th];
      if Verdicts(max, a.read, s.now).Accepted?
      then s.(threads := s.threads[th := Cleared(a.code, a.read, a.raw, s.now)])
      else s.(threads := s.threads - {th})
    case Finish(th) =>
      var a := s.threads[th];
      var (t, verdict) := Outcome(max, s.codes, a);
      s.(codes := t, threads := s.threads - {th},
         wins := if verdict.Accepted? then s.wins + [Win(a.code, a.raw, a.at)] else s.wins,
         misses := if WrongGuess(a, verdict) then s.misses + multiset{a.code} else s.misses)
    case Abandon(th) => s.(threads := s.threads - {th})
    case Tick(dt) => s.(now := s.now + dt)
  }

  predicate Valid(max: int, s: State, run: seq<Step>)
    decreases |run|
  {
    run == [] || (Enabled(s, run[0]) && Valid(max, Apply(max, s, run[0]), run[1..]))
  }

  function Exec(max: int, s: State, run: seq<Step>): State
    requires Valid(max, s, run)
    decreases |run|
  {
    if run == [] then s else Exec(max, Apply(max, s, run[0]), run[1..])
  }

  /** What a request read is the row as it was: only the counter and the mark have moved since. */
  predicate Faithful(t: Table, a: Attempt) {
    && a.code in t && !a.read.consumed && a.read.attempts <= t[a.code].attempts
    && a.read == t[a.code].(attempts := a.read.attempts, consumed := false)
    && (a.read.purpose.MagicLink? ==> a.raw == a.read.secret)
  }

  /** A cleared request met its checks when it passed them. */
  predicate InTime(max: int, s: State, a: Attempt) {
    a.Cleared? ==> a.at <= s.now && a.at <= a.read.expiresAt && (!a.read.purpose.MagicLink? ==> a.read.attempts < max)
  }

  predicate WinOk(t: Table, w: Win) {
    w.code in t && t[w.code].consumed && w.raw == t[w.code].secret && w.at <= t[w.code].expiresAt
  }

  /** The counter is the number of wrong guesses turned down as such, within the budget. */
  predicate CounterOk(max: int, s: State, id: CodeId) {
    && (id in s.codes ==> s.codes[id].attempts == s.misses[id])
    && (id !in s.codes ==> s.misses[id] == 0)
    && (s.misses[id] == 0 || s.misses[id] <= max)
  }

  predicate WonOnce(s: State) {
    forall i, j | 0 <= i < j < |s.wins| :: s.wins[i].code != s.wins[j].code
  }

  ghost predicate Inv(max: int, s: State) {
    && (forall th | th in s.threads :: Faithful(s.codes, s.threads[th]) && InTime(max, s, s.threads[th]))
    && (forall k | 0 <= k < |s.wins| :: WinOk(s.codes, s.wins[k]))
    && WonOnce(s)
    && (forall id :: CounterOk(max, s, id))
  }

  lemma FinishKeepsInv(max: int, s: State, th: ThreadId)
    requires Inv(max, s) && Enabled(s, Finish(th))
    ensures Inv(max, Apply(max, s, Finish(th)))
  {
    var a := s.threads[th];
    var s' := Apply(max, s, Finish(th));
    assert Faithful(s.codes, a) && InTime(max, s, a);
    assert s'.codes == s.codes || s'.codes == Spend(s.codes, a.code) || s'.codes == Bump(s.codes, a.code);
    forall o | o in s'.threads ensures Faithful(s'.codes, s'.threads[o]) && InTime(max, s', s'.threads[o]) {
      assert Faithful(s.codes, s.threads[o]) && InTime(max, s, s.threads[o]);
    }
    forall k | 0 <= k < |s'.wins| ensures WinOk(s'.codes, s'.wins[k]) {
      if k < |s.wins| { assert WinOk(s.codes, s.wins[k]); }
    }
    forall i, j | 0 <= i < j < |s'.wins| ensures s'.wins[i].code != s'.wins[j].code {
      assert WinOk(s.codes, s.wins[i]);
    }
    forall id ensures CounterOk(max, s', id) { assert CounterOk(max, s, id); }
  }

  lemma StepKeepsInv(max: int, s: State, e: Step)
    requires Inv(max, s) && Enabled(s, e)
    ensures Inv(max, Apply(max, s, e))
  {
    if e.Finish? {
      FinishKeepsInv(max, s, e.th);
    } else {
      var s' := Apply(max, s, e);
      forall o | o in s'.threads ensures Faithful(s'.codes, s'.threads[o]) && InTime(max, s', s'.threads[o]) {
        if o in s.threads { assert Faithful(s.codes, s.threads[o]) && InTime(max, s, s.threads[o]); }
      }
      forall k | 0 <= k < |s'.wins| ensures WinOk(s'.codes, s'.wins[k]) { assert WinOk(s.codes, s.wins[k]); }
      forall id ensures CounterOk(max, s', id) { assert CounterOk(max, s, id); }
    }
  }

  lemma {:induction false} RunKeepsInv(max: int, s: State, run: seq<Step>)
    requires Inv(max, s) && Valid(max, s, run)
    ensures Inv(max, Exec(max, s, run))
    decreases |run|
  {
    if run != [] {
      StepKeepsInv(max, s, run[0]);
      RunKeepsInv(max, Apply(max, s, run[0]), run[1..]);
    }
  }

  /** However requests interleave: each code is accepted at most once, with its own secret
      and in time, and at most max guesses at it are ever turned down as merely wrong. */
  lemma RedeemedAtMostOnce(max: int, run: seq<Step>)
    requires Valid(max, Init, run)
    ensures WonOnce(Exec(max, Init, run))
    ensures forall k | 0 <= k < |Exec(max, Init, run).wins| ::
        WinOk(Exec(max, Init, run).codes, Exec(max, Init, run).wins[k])
    ensures forall id | id in Exec(max, Init, run).codes ::
              var n := Exec(max, Init, run).codes[id].attempts;
              n == Exec(max, Init, run).misses[id] && (n == 0 || n <= max)
  {
    RunKeepsInv(max, Init, run);
    forall id | id in Exec(max, Init, run).codes ensures CounterOk(max, Exec(max, Init, run), id) {}
  }

  /**
   th can still redeem the code although its guesses are used up: it holds the right
   secret and read the row while guesses were left, and either it has passed its checks
   or there is still time to pass them.
   */
  predicate Pending(max: int, s: State, th: ThreadId, id: CodeId) {
    && th in s.threads && s.threads[th].code == id && s.threads[th].raw == s.threads[th].read.secret
    && s.threads[th].read.attempts < max
    && (s.threads[th].Cleared? || s.now <= s.threads[th].read.expiresAt)
  }

  /** Nothing can redeem the code any more. */
  ghost predicate Barred(max: int, s: State, id: CodeId) {
    id in s.codes &&
    (s.codes[id].consumed
     || (!s.codes[id].purpose.MagicLink? && s.codes[id].attempts >= max && forall th :: !Pending(max, s, th, id)))
  }

  lemma BarredStaysBarred(max: int, s: State, e: Step, id: CodeId)
    requires Inv(max, s) && Enabled(s, e) && Barred(max, s, id)
    ensures Barred(max, Apply(max, s, e), id)
    ensures var s' := Apply(max, s, e);
            s'.wins == s.wins || (|s'.wins| == |s.wins| + 1 && s'.wins[..|s.wins|] == s.wins
                && s'.wins[|s.wins|].code != id)
  {
    var s' := Apply(max, s, e);
    if !s.codes[id].consumed {
      forall th ensures !Pending(max, s', th, id) {
        assert !Pending(max, s, th, id);
        if th in s.threads { assert Faithful(s.codes, s.threads[th]) && InTime(max, s, s.threads[th]); }
      }
    }
    if e.Finish? {
      assert Faithful(s.codes, s.threads[e.th]) && InTime(max, s, s.threads[e.th]);
      assert s.codes[id].consumed || !Pending(max, s, e.th, id);
    }
  }

  lemma {:induction false} BarredForGood(max: int, s: State, run: seq<Step>, id: CodeId)
    requires Inv(max, s) && Valid(max, s, run) && Barred(max, s, id)
    ensures Barred(max, Exec(max, s, run), id)
    ensures s.wins <= Exec(max, s, run).wins
    ensures forall k | |s.wins| <= k < |Exec(max, s, run).wins| :: Exec(max, s, run).wins[k].code != id
    decreases |run|
  {
    if run != [] {
      StepKeepsInv(max, s, run[0]);
      BarredStaysBarred(max, s, run[0], id);
      BarredForGood(max, Apply(max, s, run[0]), run[1..], id);
    }
  }

  ghost predicate WinsLater(max: int, s: State, run: seq<Step>, id: CodeId) {
    Valid(max, s, run) && exists k :: |s.wins| <= k < |Exec(max, s, run).wins| && Exec(max, s, run).wins[k].code == id
  }

  lemma PendingWins(max: int, s: State, th: ThreadId, id: CodeId) returns (run: seq<Step>)
    requires Inv(max, s) && id in s.codes && !s.codes[id].consumed && !s.codes[id].purpose.MagicLink?
    requires Pending(max, s, th, id)
    ensures WinsLater(max, s, run, id)
    decreases s.threads[th].Reading?
  {
    assert Faithful(s.codes, s.threads[th]);
    if s.threads[th].Cleared? {
      run := [Finish(th)];
      var s' := Apply(max, s, Finish(th));
      assert run[1..] == [];
      assert s'.wins[|s.wins|].code == id;
      assert Exec(max, s, run) == s';
    } else {
      var s' := Apply(max, s, Judge(th));
      StepKeepsInv(max, s, Judge(th));
      var rest := PendingWins(max, s', th, id);
      run := [Judge(th)] + rest;
      assert run[1..] == rest;
      assert Exec(max, s, run) == Exec(max, s', rest);
    }
  }

  /** A request that nothing interrupts redeems an active code with its secret. */
  lemma ActiveIsRedeemed(max: int, s: State, th: ThreadId, id: CodeId)
    requires th !in s.threads && Active(s.codes, id, s.now)
    requires !s.codes[id].purpose.MagicLink? ==> s.codes[id].attempts < max
    ensures var run := [Read(th, id, s.codes[id].secret), Judge(th), Finish(th)];
            && Valid(max, s, run)
            && Exec(max, s, run).codes == s.codes[id := s.codes[id].(consumed := true)]
            && Exec(max, s, run).wins == s.wins + [Win(id, s.codes[id].secret, s.now)]
  {
    var run := [Read(th, id, s.codes[id].secret), Judge(th), Finish(th)];
    var s1 := Apply(max, s, run[0]);
    var s2 := Apply(max, s1, run[1]);
    var s3 := Apply(max, s2, run[2]);
    assert run[1..][1..] == run[2..] && run[2..][1..] == [];
    assert Valid(max, s2, run[2..]) && Exec(max, s2, run[2..]) == s3;
    assert Valid(max, s1, run[1..]) && Exec(max, s1, run[1..]) == s3;
  }

  /** Once the guesses are used up, a code can still be redeemed exactly by a request that
      read it before with the right secret and is not too late; so serially never again. */
  lemma LateWinIff(max: int, s: State, id: CodeId)
    requires Inv(max, s)
    requires id in s.codes && !s.codes[id].consumed && !s.codes[id].purpose.MagicLink? && s.codes[id].attempts >= max
    ensures (exists run :: WinsLater(max, s, run, id)) <==> exists th :: Pending(max, s, th, id)
  {
    if th :| Pending(max, s, th, id) {
      var run := PendingWins(max, s, th, id);
    } else {
      forall run ensures !WinsLater(max, s, run, id) {
        if Valid(max, s, run) { BarredForGood(max, s, run, id); }
      }
    }
  }

  /** Two calls that issue a code for one scope, both invalidating before either saves,
      leave two unconsumed codes. */
  lemma TwoIssuers(max: int, a: Code, b: Code, channel: Option<Channel>) returns (run: seq<Step>)
    requires Rival(a, b) && a.attempts == 0 && b.attempts == 0 && !a.consumed && !b.consumed
    ensures var i, j := Invalidate(a.user, a.purpose, channel), Invalidate(b.user, b.purpose, channel);
            run == [i, j, Save(0, a), Save(1, b)]
    ensures Valid(max, Init, run) && !OneActive(Exec(max, Init, run).codes)
  {
    var i, j := Invalidate(a.user, a.purpose, channel), Invalidate(b.user, b.purpose, channel);
    run := [i, j, Save(0, a), Save(1, b)];
    assert run[1..] == [j, Save(0, a), Save(1, b)] && run[1..][1..] == [Save(0, a), Save(1, b)];
    assert run[1..][1..][1..] == [Save(1, b)] && run[1..][1..][1..][1..] == [];
    var s1 := Apply(max, Init, i);
    assert s1 == Init && Apply(max, Init, j) == Init;
    var s3 := Apply(max, Init, Save(0, a));
    var s4 := Apply(max, s3, Save(1, b));
    assert s4.codes == map[0 := a, 1 := b];
    assert Valid(max, s3, [Save(1, b)]) && Exec(max, s3, [Save(1, b)]) == s4;
    assert Valid(max, Init, run[1..][1..]) && Exec(max, Init, run[1..][1..]) == s4;
    assert s4.codes[0] == a && s4.codes[1] == b;
  }
}
