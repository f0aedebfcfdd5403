/**
 Checks of the limiter on one key that overlap: each increments the counter and then sets
 its window anew, and other checks may run between the two calls
 (internal/modules/auth/application/command/login.go).
 */
module LimiterProtocol {
  import opened Common
  import opened Clock
  import opened Sequences
  import opened Strconv
  import opened CacheDrivers
  import RateLimiter

  type ThreadId = nat

  datatype Config = Config(d: Driver, k: string, window: int, max: nat)

  /** A check let through: the n-th of the counter's life-th life. */
  datatype Accept = Accept(life: nat, n: int, at: int)

  /**
   pending: the checks that have incremented and not yet set the window.
   number, births and accepts are history: what the last increment answered, when the counter
   was started from zero, and the checks let through.
   */
  datatype State = State(now: int, items: Items, pending: set<ThreadId>,
                         number: int, births: seq<int>, accepts: set<Accept>)

  datatype Step = Hit(th: ThreadId) | Date(th: ThreadId) | Crash(th: ThreadId) | Tick(dt: nat)

  /** The counter is live; otherwise the next increment starts it from zero. */
  predicate Continues(c: Config, s: State) { Has(c.d, s.items, s.now, c.k) }

  /** The counter does not reach the largest 64-bit integer. */
  predicate Enabled(c: Config, s: State, e: Step) {
    match e
    case Hit(th) => th !in s.pending && (Continues(c, s) ==> s.number < MAX_INT64)
    case Date(th) => th in s.pending
    case Crash(th) => th in s.pending
    case Tick(_) => true
  }

  /** The state once the increment has left these items and answered n. */
  function Counted(c: Config, s: State, th: ThreadId, items: Items, n: int): State {
    var births := if Continues(c, s) then s.births else s.births + [s.now];
    var accepts := if n <= c.max && births != [] then {Accept(|births| - 1, n, s.now)} else {};
    State(s.now, items, s.pending + {th}, n, births, s.accepts + accepts)
  }

  function Incremented(c: Config, s: State): (Items, Answer) { Perform(c.d, s.items, s.now, Increment(c.k, 1)) }

  function Apply(c: Config, s: State, e: Step): State
    requires Enabled(c, s, e)
  {
    match e
    case Hit(th) =>
      var (items, answer) := Incremented(c, s);
      if answer.Count? then Counted(c, s, th, items, answer.n) else s
    case Date(th) =>
      s.(items := Perform(c.d, s.items, s.now, Expire(c.k, c.window)).0, pending := s.pending - {th})
    case Crash(th) => s.(pending := s.pending - {th})
    case Tick(dt) => s.(now := s.now + dt)
  }

  predicate Valid(c: Config, s: State, run: seq<Step>)
    decreases |run|
  {
    run == [] || (Enabled(c, s, run[0]) && Valid(c, Apply(c, s, run[0]), run[1..]))
  }

  function Exec(c: Config, s: State, run: seq<Step>): State
    requires Valid(c, s, run)
    decreases |run|
  {
    if run == [] then s else Exec(c, Apply(c, s, run[0]), run[1..])
  }

  /** The key was never counted, or has just been reset; checks begun before may still set the window. */
  predicate Start(c: Config, s: State) { c.k !in s.items && s.births == [] && s.accepts == {} }

  /** How long a counter lasts at least once its window is set. */
  function Lifetime(c: Config): nat {
    match c.d
    case Memory => if c.window > 0 then c.window + 1 else 0
    case Database => if c.window >= SECOND then c.window - SECOND + 1 else 0
  }

  lemma DatedLasts(c: Config, now: int)
    requires c.window > 0
    ensures Deadline(c.d, Stamp(c.d, now, c.window)) >= now + Lifetime(c)
  {
  }

  /** What is stored for the key is the last answer. */
  predicate Numbered(c: Config, s: State) {
    c.k in s.items ==> Atoi(s.items[c.k].value) == Some(s.number) && 1 <= s.number <= MAX_INT64
  }

  /** What the increment does to the key. */
  predicate OneUp(c: Config, s: State, items: Items, n: int) {
    && n == (if Continues(c, s) then s.number + 1 else 1)
    && c.k in items && Atoi(items[c.k].value) == Some(n)
    && items[c.k].expiry == if Continues(c, s) then s.items[c.k].expiry else None
  }

  lemma Increments(c: Config, s: State) returns (items: Items, n: int)
    requires Numbered(c, s) && (Continues(c, s) ==> s.number < MAX_INT64)
    ensures Incremented(c, s) == (items, Count(n)) && OneUp(c, s, items, n) && n <= MAX_INT64
  {
    items := Incremented(c, s).0;
    if Continues(c, s) {
      n := s.number + 1;
      RateLimiter.OneMore(s.items[c.k].value, n);
    } else {
      n := 1;
      RateLimiter.AtoiZero();
      RateLimiter.OneMore("0", 1);
    }
  }

  /** A counter lives through every span of its guaranteed lifetime that begins at its start. */
  predicate Spaced(c: Config, s: State) {
    && (forall i, j | 0 <= i < j < |s.births| :: s.births[i] + Lifetime(c) <= s.births[j])
    && (forall i | 0 <= i < |s.births| :: s.births[i] <= s.now)
  }

  /** The present counter is in its last life, and lasts that long too. */
  predicate Dated(c: Config, s: State) {
    && (c.k in s.items ==> s.births != [])
    && (c.window > 0 && s.births != [] ==> c.k in s.items)
    && (c.k in s.items && s.items[c.k].expiry.Some? ==>
          Deadline(c.d, s.items[c.k].expiry.value) >= s.births[|s.births| - 1] + Lifetime(c))
  }

  predicate AcceptOk(c: Config, s: State, a: Accept) {
    && a.life < |s.births| && 1 <= a.n <= c.max
    && s.births[a.life] <= a.at <= s.now
    && (a.n == 1 ==> a.at == s.births[a.life])
    && (a.life + 1 < |s.births| ==> a.at <= s.births[a.life + 1])
    && (a.life + 1 == |s.births| && c.k in s.items ==> a.n <= s.number)
  }

  /** Within one life every number is handed out once. */
  predicate HandedOutOnce(accepts: set<Accept>) {
    forall a, b | a in accepts && b in accepts && a.life == b.life && a.n == b.n :: a == b
  }

  predicate Inv(c: Config, s: State) {
    && Numbered(c, s) && Spaced(c, s) && Dated(c, s) && HandedOutOnce(s.accepts)
    && forall a | a in s.accepts :: AcceptOk(c, s, a)
  }

  /** A counter that has run out was started at least a lifetime ago. */
  lemma NewLifeIsLater(c: Config, s: State)
    requires Spaced(c, s) && Dated(c, s) && !Continues(c, s) && s.births != []
    ensures s.births[|s.births| - 1] + Lifetime(c) <= s.now
  {
  }

  lemma CountKeepsSpaced(c: Config, s: State, th: ThreadId, items: Items, n: int)
    requires Inv(c, s) && OneUp(c, s, items, n)
    ensures Spaced(c, Counted(c, s, th, items, n))
  {
    if !Continues(c, s) && s.births != [] {
      NewLifeIsLater(c, s);
      var last := |s.births| - 1;
      assert forall i | 0 <= i < last :: s.births[i] + Lifetime(c) <= s.births[last];
    }
  }

  lemma CountKeepsAccepts(c: Config, s: State, th: ThreadId, items: Items, n: int)
    requires Inv(c, s) && OneUp(c, s, items, n)
    ensures var s' := Counted(c, s, th, items, n);
            HandedOutOnce(s'.accepts) && forall a | a in s'.accepts :: AcceptOk(c, s', a)
  {
    var s' := Counted(c, s, th, items, n);
    forall a | a in s.accepts ensures AcceptOk(c, s', a) && (a.life + 1 == |s'.births| ==> a.n < n) {
      assert AcceptOk(c, s, a);
    }
  }

  lemma CountKeepsInv(c: Config, s: State, th: ThreadId, items: Items, n: int)
    requires Inv(c, s) && OneUp(c, s, items, n) && n <= MAX_INT64
    ensures Inv(c, Counted(c, s, th, items, n))
  {
    CountKeepsSpaced(c, s, th, items, n);
    CountKeepsAccepts(c, s, th, items, n);
  }

  lemma DateKeepsInv(c: Config, s: State, th: ThreadId)
    requires Inv(c, s) && Enabled(c, s, Date(th))
    ensures Inv(c, Apply(c, s, Date(th)))
  {
    var s' := Apply(c, s, Date(th));
    if c.window > 0 { DatedLasts(c, s.now); }
    forall a | a in s'.accepts ensures AcceptOk(c, s', a) { assert AcceptOk(c, s, a); }
  }

  lemma StepKeepsInv(c: Config, s: State, e: Step)
    requires Inv(c, s) && Enabled(c, s, e)
    ensures Inv(c, Apply(c, s, e))
  {
    match e
    case Hit(th) =>
      var items, n := Increments(c, s);
      CountKeepsInv(c, s, th, items, n);
    case Date(th) => DateKeepsInv(c, s, th);
    case Crash(_) =>
      forall a | a in s.accepts ensures AcceptOk(c, Apply(c, s, e), a) { assert AcceptOk(c, s, a); }
    case Tick(_) =>
      forall a | a in s.accepts ensures AcceptOk(c, Apply(c, s, e), a) { assert AcceptOk(c, s, a); }
  }

  lemma {:induction false} RunKeepsInv(c: Config, s: State, run: seq<Step>)
    requires Inv(c, s) && Valid(c, s, run)
    ensures Inv(c, Exec(c, s, run))
    decreases |run|
  {
    if run != [] {
      StepKeepsInv(c, s, run[0]);
      RunKeepsInv(c, Apply(c, s, run[0]), run[1..]);
    }
  }

  /** The checks let through in the lifetime from one instant on. */
  function InSpan(c: Config, s: State, from: int): set<Accept> {
    set a | a in s.accepts && from <= a.at < from + Lifetime(c)
  }

  function OfLife(accepts: set<Accept>, life: nat): set<Accept> { set a | a in accepts && a.life == life }

  /** Between lo and hi there are that many numbers to hand out. */
  lemma {:induction false} NumbersHandedOut(accepts: set<Accept>, life: nat, lo: int, hi: int)
    requires HandedOutOnce(accepts) && lo <= hi + 1
    requires forall a | a in accepts :: a.life == life && lo <= a.n <= hi
    ensures |accepts| <= hi + 1 - lo
    decreases hi + 1 - lo
  {
    if lo == hi + 1 {
      assert accepts == {};
    } else {
      var rest := set a | a in accepts && a.n != hi;
      NumbersHandedOut(rest, life, lo, hi - 1);
      if a :| a in accepts && a.n == hi {
        assert accepts == rest + {a};
      } else {
        assert accepts == rest;
      }
    }
  }

  /** A span meets at most two lives, and in the first of two not its first number. */
  lemma SpanMeetsTwoLives(c: Config, s: State, from: int, a: Accept, b: Accept)
    requires Inv(c, s) && a in InSpan(c, s, from) && b in InSpan(c, s, from) && a.life < b.life
    ensures b.life == a.life + 1 && a.n > 1
  {
    assert AcceptOk(c, s, a) && AcceptOk(c, s, b);
    var x, y := s.births[a.life], s.births[a.life + 1];
    assert x + Lifetime(c) <= y;
    assert forall j | a.life + 1 < j < |s.births| :: y + Lifetime(c) <= s.births[j];
  }

  /** The lives a span meets are this one and the next. */
  lemma FirstLife(c: Config, s: State, from: int) returns (life: nat)
    requires Inv(c, s)
    ensures forall a | a in InSpan(c, s, from) :: a.life == life || a.life == life + 1
  {
    life := 0;
    var span := InSpan(c, s, from);
    if a :| a in span {
      life := a.life;
      if b :| b in span && b.life < a.life {
        SpanMeetsTwoLives(c, s, from, b, a);
        life := b.life;
      }
      forall x, y | x in span && y in span && x.life < y.life ensures y.life == x.life + 1 {
        SpanMeetsTwoLives(c, s, from, x, y);
      }
    }
  }

  lemma SpanBounded(c: Config, s: State, from: int)
    requires Inv(c, s)
    ensures |InSpan(c, s, from)| <= if c.max == 0 then 0 else 2 * c.max - 1
  {
    var span := InSpan(c, s, from);
    var life := FirstLife(c, s, from);
    var first, second := OfLife(span, life), OfLife(span, life + 1);
    assert span == first + second;
    assert forall a | a in span :: AcceptOk(c, s, a);
    NumbersHandedOut(second, life + 1, 1, c.max);
    if b :| b in second {
      forall a | a in first ensures a.n > 1 { SpanMeetsTwoLives(c, s, from, a, b); }
      NumbersHandedOut(first, life, if c.max == 0 then 1 else 2, c.max);
    } else {
      NumbersHandedOut(first, life, 1, c.max);
    }
  }

  /** In every interleaving, at most 2 * max - 1 checks are let through in a lifetime of the counter. */
  lemma AcceptedInSpan(c: Config, s: State, run: seq<Step>, from: int)
    requires Start(c, s) && Valid(c, s, run)
    ensures |InSpan(c, Exec(c, s, run), from)| <= if c.max == 0 then 0 else 2 * c.max - 1
  {
    RunKeepsInv(c, s, run);
    SpanBounded(c, Exec(c, s, run), from);
  }

  // ---------------------------------------------------------------------------
  // The bound is met
  // ---------------------------------------------------------------------------

  lemma {:induction false} ExecSnoc(c: Config, s: State, run: seq<Step>, e: Step)
    requires Valid(c, s, run) && Enabled(c, Exec(c, s, run), e)
    ensures Valid(c, s, run + [e])
    ensures Exec(c, s, run + [e]) == Apply(c, Exec(c, s, run), e)
    decreases |run|
  {
    if run == [] {
      assert [e][1..] == [];
    } else {
      ExecSnoc(c, Apply(c, s, run[0]), run[1..], e);
      assert (run + [e])[1..] == run[1..] + [e];
    }
  }

  const Origin := State(0, map[], {}, 0, [], {})

  lemma OriginInv(c: Config)
    ensures Start(c, Origin) && Inv(c, Origin)
  {
  }

  function Expiry(c: Config, s: State): Option<int> {
    if c.k in s.items then s.items[c.k].expiry else None
  }

  /** The counter is live and stands at n, and so many checks were let through from one instant on. */
  predicate Point(c: Config, s: State, from: int, n: int, size: nat) {
    && Continues(c, s) && s.number == n && |InSpan(c, s, from)| == size
    && from <= s.now < from + Lifetime(c)
  }

  /** The number handed out is one that its life has not handed out before. */
  lemma HitAdds(c: Config, s: State, th: ThreadId, items: Items, n: int)
    requires Inv(c, s) && OneUp(c, s, items, n) && n <= c.max
    ensures var s' := Counted(c, s, th, items, n);
            var a := Accept(|s'.births| - 1, n, s.now);
            s'.births != [] && a !in s.accepts && s'.accepts == s.accepts + {a}
  {
    assert forall a | a in s.accepts :: AcceptOk(c, s, a);
  }

  lemma SpanGrows(c: Config, s: State, s': State, a: Accept, from: int)
    requires a !in s.accepts && s'.accepts == s.accepts + {a} && from <= a.at < from + Lifetime(c)
    ensures |InSpan(c, s', from)| == |InSpan(c, s, from)| + 1
  {
    assert InSpan(c, s', from) == InSpan(c, s, from) + {a};
  }

  /** One more check is let through. */
  lemma HitAccepted(c: Config, run: seq<Step>, s: State, from: int, n: int) returns (run': seq<Step>, s': State)
    requires Valid(c, Origin, run) && s == Exec(c, Origin, run)
    requires from <= s.now < from + Lifetime(c) && n <= c.max <= MAX_INT64
    requires Continues(c, s) ==> s.number == n - 1
    requires !Continues(c, s) ==> n == 1
    ensures Valid(c, Origin, run') && s' == Exec(c, Origin, run')
    ensures Point(c, s', from, n, |InSpan(c, s, from)| + 1) && s'.now == s.now
    ensures Continues(c, s) ==> Expiry(c, s') == Expiry(c, s)
    ensures s'.pending != {}
  {
    OriginInv(c);
    RunKeepsInv(c, Origin, run);
    var th := FreshNat(s.pending);
    var items, m := Increments(c, s);
    s' := Counted(c, s, th, items, m);
    run' := run + [Hit(th)];
    ExecSnoc(c, Origin, run, Hit(th));
    HitAdds(c, s, th, items, n);
    CountKeepsInv(c, s, th, items, n);
    SpanGrows(c, s, s', Accept(|s'.births| - 1, n, s.now), from);
  }

  /** j more checks at the same instant. */
  lemma {:induction false} HitMany(c: Config, run: seq<Step>, s: State, from: int, n: int, size: nat, j: nat)
      returns (run': seq<Step>, s': State)
    requires Valid(c, Origin, run) && s == Exec(c, Origin, run)
    requires Point(c, s, from, n, size) && n + j <= c.max <= MAX_INT64
    ensures Valid(c, Origin, run') && s' == Exec(c, Origin, run')
    ensures Point(c, s', from, n + j, size + j) && s'.now == s.now && Expiry(c, s') == Expiry(c, s)
    decreases j
  {
    run', s' := run, s;
    if j > 0 {
      run', s' := HitMany(c, run, s, from, n, size, j - 1);
      run', s' := HitAccepted(c, run', s', from, n + j);
    }
  }

  /** The first check, and then all but the last instant of its window. */
  lemma Opening(c: Config) returns (run: seq<Step>, s: State, from: int)
    requires 1 <= c.max <= MAX_INT64 && Lifetime(c) >= 2
    ensures Valid(c, Origin, run) && s == Exec(c, Origin, run) && Point(c, s, from, 1, 0) && s.now == from
    ensures Expiry(c, s).Some? && Deadline(c.d, Expiry(c, s).value) == from + 1
  {
    run, s := HitAccepted(c, [], Origin, 0, 1);
    OriginInv(c);
    RunKeepsInv(c, Origin, run);
    assert forall a | a in s.accepts :: AcceptOk(c, s, a);
    var th :| th in s.pending;
    ExecSnoc(c, Origin, run, Date(th));
    run := run + [Date(th)];
    from := Deadline(c.d, Stamp(c.d, 0, c.window)) - 1;
    DatedLasts(c, 0);
    ExecSnoc(c, Origin, run, Tick(from as nat));
    run := run + [Tick(from as nat)];
    s := Exec(c, Origin, run);
    RunKeepsInv(c, Origin, run);
    assert InSpan(c, s, from) == {};
  }

  /** The counter runs out, and starts anew with one more check. */
  lemma Reopening(c: Config, run: seq<Step>, s: State, from: int, n: int, size: nat)
      returns (run': seq<Step>, s': State)
    requires Valid(c, Origin, run) && s == Exec(c, Origin, run) && Point(c, s, from, n, size) && s.now == from
    requires Expiry(c, s).Some? && Deadline(c.d, Expiry(c, s).value) == from + 1
    requires n < MAX_INT64 && 1 <= c.max <= MAX_INT64 && Lifetime(c) >= 2
    ensures Valid(c, Origin, run') && s' == Exec(c, Origin, run') && Point(c, s', from, 1, size + 1)
  {
    ExecSnoc(c, Origin, run, Tick(1));
    run' := run + [Tick(1)];
    s' := Exec(c, Origin, run');
    assert InSpan(c, s', from) == InSpan(c, s, from);
    run', s' := HitAccepted(c, run', s', from, 1);
  }

  ghost predicate Reaches(c: Config, n: nat) {
    exists run, from :: Valid(c, Origin, run) && |InSpan(c, Exec(c, Origin, run), from)| == n
  }

  /** max - 1 checks in the last instant of a window and max in the next. */
  lemma BoundMet(c: Config)
    requires 1 <= c.max < MAX_INT64 && Lifetime(c) >= 2
    ensures Reaches(c, 2 * c.max - 1)
  {
    var run, s, from := Opening(c);
    run, s := HitMany(c, run, s, from, 1, 0, c.max - 1);
    run, s := Reopening(c, run, s, from, c.max, c.max - 1);
    run, s := HitMany(c, run, s, from, 1, c.max, c.max - 1);
    assert |InSpan(c, s, from)| == 2 * c.max - 1;
  }

  /** From wherever the key has just been reset, no lifetime ever lets more than n checks through. */
  ghost predicate Limits(c: Config, n: nat) {
    forall s, run, from | Start(c, s) && Valid(c, s, run) :: |InSpan(c, Exec(c, s, run), from)| <= n
  }

  /**
   The limit on overlapping checks: 2 * max - 1 in any lifetime of the counter and no less,
   so max itself is kept in every interleaving exactly when it is at most one.
   */
  lemma LimitHoldsIff(c: Config)
    requires c.max < MAX_INT64 && Lifetime(c) >= 2
    ensures Limits(c, c.max) <==> c.max <= 1
    ensures c.max >= 1 ==> forall n: nat :: Limits(c, n) <==> n >= 2 * c.max - 1
  {
    forall s, run, from | Start(c, s) && Valid(c, s, run)
      ensures |InSpan(c, Exec(c, s, run), from)| <= if c.max == 0 then 0 else 2 * c.max - 1
    {
      AcceptedInSpan(c, s, run, from);
    }
    if c.max >= 1 {
      BoundMet(c);
      OriginInv(c);
      assert forall n: nat :: Limits(c, n) ==> n >= 2 * c.max - 1;
    }
  }
}
