/**
 The SMTP connection pool (internal/platform/mailer/smtp.go) under any number of
 concurrent senders, the background sweeper and Close. Every atomic load, atomic
 add and channel operation is one step; what travels over a connection is not
 modelled, only who holds it.
 */
module SmtpProtocol {
  import opened Sequences

  type ConnId = nat
  type ThreadId = nat

  /** borrowConn and returnConn between their atomic operations. */
  datatype Pc =
    | Open                  // saw the pool open
    | Seen                  // saw createdConns below the limit
    | Checked               // and no idle connection: about to add
    | Dialing
    | Waiting               // in borrowConn's select
    | Holding(conn: ConnId)

  datatype Sweeper = Resting | Counted(num: nat) | Loaded(num: nat, created: int)
      | Popping(left: nat, closed: bool) | Pushing | Done

  /** dialled and shut are history: the connections ever dialled, and those closed since. */
  datatype State = State(
    created: int, idle: seq<ConnId>, closed: bool, threads: map<ThreadId, Pc>,
    sweeper: Sweeper, hand: seq<ConnId>, dialled: set<ConnId>, shut: set<ConnId>)

  /** At most k borrowers at a time are between reading createdConns and adding to it. */
  datatype Config = Config(maxConns: nat, k: nat)

  datatype Step =
    | Start(th: ThreadId)
    | Load(th: ThreadId)
    | Check(th: ThreadId)
    | Add(th: ThreadId)
    | DialOk(th: ThreadId, conn: ConnId)
    | DialFail(th: ThreadId)
    | Take(th: ThreadId)
    | GiveUp(th: ThreadId)
    | Push(th: ThreadId)
    | Discard(th: ThreadId)
    | Close
    | SweepCount
    | SweepLoad
    | SweepDecide
    | SweepPop(stale: bool)
    | SweepPush
    | SweepEnd

  const Init := State(0, [], false, map[], Resting, [], {}, {})

  predicate At(s: State, th: ThreadId, pc: Pc) { th in s.threads && s.threads[th] == pc }

  predicate Holds(s: State, th: ThreadId) { th in s.threads && s.threads[th].Holding? }

  /** Between reading createdConns and adding to it. */
  function Window(s: State): set<ThreadId> { set th | th in s.threads
      && (s.threads[th].Seen? || s.threads[th].Checked?) }

  /** Counted in createdConns: dialling, or with a connection on loan. */
  function OnLoan(s: State): set<ThreadId> { set th | th in s.threads
      && (s.threads[th].Dialing? || s.threads[th].Holding?) }

  predicate Enabled(c: Config, s: State, e: Step) {
    match e
    case Start(th) => th !in s.threads && !s.closed
    case Load(th) => At(s, th, Open) && (s.created < c.maxConns ==> |Window(s)| < c.k)
    case Check(th) => At(s, th, Seen)
    case Add(th) => At(s, th, Checked)
    case DialOk(th, conn) => At(s, th, Dialing) && conn !in s.dialled
    case DialFail(th) => At(s, th, Dialing)
    case Take(th) => At(s, th, Waiting) && s.idle != []
    case GiveUp(th) => At(s, th, Waiting)
    case Push(th) => Holds(s, th) && |s.idle| < c.maxConns
    case Discard(th) => Holds(s, th)
    case Close => true
    case SweepCount => s.sweeper.Resting?
    case SweepLoad => s.sweeper.Counted?
    case SweepDecide => s.sweeper.Loaded?
    case SweepPop(_) => s.sweeper.Popping? && s.sweeper.left > 0
    case SweepPush => s.sweeper.Pushing? && s.hand != []
    case SweepEnd => (s.sweeper.Popping? && s.sweeper.left == 0) || (s.sweeper.Pushing? && s.hand == [])
  }

  function Apply(c: Config, s: State, e: Step): State
    requires Enabled(c, s, e)
  {
    match e
    case Start(th) => s.(threads := s.threads[th := Open])
    case Load(th) => s.(threads := s.threads[th := if s.created < c.maxConns then Seen else Waiting])
    case Check(th) => s.(threads := s.threads[th := if s.idle == [] then Checked else Waiting])
    case Add(th) => s.(created := s.created + 1, threads := s.threads[th := Dialing])
    case DialOk(th, conn) => s.(threads := s.threads[th := Holding(conn)], dialled := s.dialled + {conn})
    case DialFail(th) => s.(created := s.created - 1, threads := s.threads - {th})
    case Take(th) => s.(idle := s.idle[1..], threads := s.threads[th := Holding(s.idle[0])])
    case GiveUp(th) => s.(threads := s.threads - {th})
    case Push(th) => s.(idle := s.idle + [s.threads[th].conn], threads := s.threads - {th})
    case Discard(th) => s.(created := s.created - 1, threads := s.threads - {th}, shut := s.shut + {s.threads[th].conn})
    case Close => s.(closed := true)
    case SweepCount => s.(sweeper := Counted(|s.idle|))
    case SweepLoad => s.(sweeper := Loaded(s.sweeper.num, s.created))
    case SweepDecide =>
      s.(sweeper := if s.closed && s.sweeper.created == 0 then Done else Popping(s.sweeper.num, s.closed))
    case SweepPop(stale) =>
      var next := Popping(s.sweeper.left - 1, s.sweeper.closed);
      if s.idle == [] then s.(sweeper := next)
      else if s.sweeper.closed || stale then
        s.(sweeper := next, idle := s.idle[1..], created := s.created - 1, shut := s.shut + {s.idle[0]})
      else s.(sweeper := next, idle := s.idle[1..], hand := s.hand + [s.idle[0]])
    case SweepPush =>
      if |s.idle| < c.maxConns then s.(idle := s.idle + [s.hand[0]], hand := s.hand[1..])
      else s.(hand := s.hand[1..], created := s.created - 1, shut := s.shut + {s.hand[0]})
    case SweepEnd => s.(sweeper := if s.sweeper.Popping? then Pushing else Resting)
  }

  predicate Valid(c: Config, s: State, run: seq<Step>)
    decreases |run|
  {
    run == [] || (Enabled(c, s, run[0]) && Valid(c, Apply(c, s, run[0]), run[1..]))
  }

  function Exec(c: Config, s: State, run: seq<Step>): State
    requires Valid(c, s, run)
    decreases |run|
  {
    if run == [] then s else Exec(c, Apply(c, s, run[0]), run[1..])
  }

  // ---- conservation ----

  predicate HeldOnce(s: State, th: ThreadId) {
    Holds(s, th) ==>
      && s.threads[th].conn !in s.idle && s.threads[th].conn !in s.hand
      && forall o | o in s.threads && s.threads[o] == s.threads[th] :: o == th
  }

  ghost predicate Somewhere(s: State, conn: ConnId) {
    conn in s.idle || conn in s.hand || exists th :: At(s, th, Holding(conn))
  }

  /** Each connection that is open is in exactly one place, and no closed one is in any. */
  ghost predicate Placed(s: State) {
    && Distinct(s.idle + s.hand) && s.shut <= s.dialled
    && (forall th | th in s.threads :: HeldOnce(s, th))
    && (forall conn :: Somewhere(s, conn) <==> conn in s.dialled && conn !in s.shut)
  }

  predicate Counts(c: Config, s: State) {
    && s.created == |s.idle| + |s.hand| + |OnLoan(s)|
    && |s.idle| <= c.maxConns
    && s.created + |Window(s)| <= c.maxConns + c.k - 1
  }

  ghost predicate Inv(c: Config, s: State) { Placed(s) && Counts(c, s) }

  predicate SameElsewhere(s: State, s': State, th: ThreadId) {
    && (forall o | o in s.threads && o != th :: o in s'.threads && s'.threads[o] == s.threads[o])
    && (forall o | o in s'.threads && o != th :: o in s.threads)
  }

  lemma SizeMoved(a: set<ThreadId>, b: set<ThreadId>, th: ThreadId)
    requires forall o | o != th :: o in a <==> o in b
    ensures |b| - |a| == (if th in b then 1 else 0) - (if th in a then 1 else 0)
  {
    var rest := a - {th};
    assert rest == b - {th};
    assert a == if th in a then rest + {th} else rest;
    assert b == if th in b then rest + {th} else rest;
  }

  /** The sizes of both thread sets after th alone moved. */
  lemma Moved(s: State, s': State, th: ThreadId)
    requires SameElsewhere(s, s', th)
    ensures |OnLoan(s')| - |OnLoan(s)| == (if th in OnLoan(s') then 1 else 0) - (if th in OnLoan(s) then 1 else 0)
    ensures |Window(s')| - |Window(s)| == (if th in Window(s') then 1 else 0) - (if th in Window(s) then 1 else 0)
  {
    SizeMoved(OnLoan(s), OnLoan(s'), th);
    SizeMoved(Window(s), Window(s'), th);
  }

  lemma CountsKeptByThread(c: Config, s: State, e: Step, th: ThreadId)
    requires Counts(c, s) && Enabled(c, s, e)
    requires e.Start? || e.Load? || e.Check? || e.Add? || e.DialOk? || e.DialFail? || e.Take? || e.GiveUp?
        || e.Push? || e.Discard?
    requires e.th == th
    ensures Counts(c, Apply(c, s, e))
  {
    assert SameElsewhere(s, Apply(c, s, e), th);
    Moved(s, Apply(c, s, e), th);
  }

  lemma CountsKept(c: Config, s: State, e: Step)
    requires Counts(c, s) && Enabled(c, s, e)
    ensures Counts(c, Apply(c, s, e))
  {
    if e.Close? || e.SweepCount? || e.SweepLoad? || e.SweepDecide? || e.SweepPop? || e.SweepPush? || e.SweepEnd? {
      assert OnLoan(Apply(c, s, e)) == OnLoan(s) && Window(Apply(c, s, e)) == Window(s);
    } else {
      CountsKeptByThread(c, s, e, e.th);
    }
  }

  /** Taking the first element out of a list without repetitions. */
  lemma Popped(q: seq<ConnId>, rest: seq<ConnId>)
    requires q != [] && Distinct(q + rest)
    ensures Distinct(q[1..] + rest) && q[0] !in q[1..] && q[0] !in rest
    ensures forall x :: x in q <==> x == q[0] || x in q[1..]
  {
    var tail := q[1..] + rest;
    assert forall i | 0 <= i < |tail| :: tail[i] == (q + rest)[i + 1];
    assert (q + rest)[0] == q[0];
    assert q[0] !in tail;
    assert forall x | x in q[1..] || x in rest :: x in tail;
    assert q == [q[0]] + q[1..];
  }

  /** A repetition-free pair of lists stays so when a new element joins either. */
  lemma Joined(q: seq<ConnId>, rest: seq<ConnId>, x: ConnId)
    requires Distinct(q + rest) && x !in q && x !in rest
    ensures Distinct((q + [x]) + rest) && Distinct(q + (rest + [x]))
  {
    var a, b := (q + [x]) + rest, q + (rest + [x]);
    assert b == (q + rest) + [x];
    forall i, j | 0 <= i < j < |a| ensures a[i] != a[j] {
      assert forall k | 0 <= k < |a| && k != |q| :: a[k] == (q + rest)[if k < |q| then k else k - 1];
    }
  }

  lemma Swapped(q: seq<ConnId>, rest: seq<ConnId>)
    requires Distinct(q + rest)
    ensures Distinct(rest + q)
  {
    var a := rest + q;
    forall i, j | 0 <= i < j < |a| ensures a[i] != a[j] {
      assert forall k | 0 <= k < |a| :: a[k] == (q + rest)[if k < |rest| then |q| + k else k - |rest|];
    }
  }

  /** Only who holds what decides Placed. */
  ghost predicate SamePlaces(s: State, s': State) {
    && s'.idle == s.idle && s'.hand == s.hand && s'.dialled == s.dialled && s'.shut == s.shut
    && (forall th, conn :: At(s, th, Holding(conn)) <==> At(s', th, Holding(conn)))
  }

  lemma PlacedKeptInPlace(s: State, s': State)
    requires Placed(s) && SamePlaces(s, s')
    ensures Placed(s')
  {
    forall th | th in s'.threads ensures HeldOnce(s', th) {
      if Holds(s', th) {
        var conn := s'.threads[th].conn;
        assert At(s', th, Holding(conn)) && At(s, th, Holding(conn)) && HeldOnce(s, th);
        forall o | o in s'.threads && s'.threads[o] == s'.threads[th] ensures o == th {
          assert At(s', o, Holding(conn)) && At(s, o, Holding(conn));
        }
      }
    }
    forall conn ensures Somewhere(s', conn) <==> Somewhere(s, conn) {}
  }

  predicate Transfers(e: Step) { e.DialOk? || e.Take? || e.Push? || e.Discard? }

  /** The connection a transfer is about. */
  function Moving(s: State, e: Step): ConnId
    requires Transfers(e)
    requires e.Take? ==> s.idle != []
    requires e.Push? || e.Discard? ==> Holds(s, e.th)
  {
    match e case DialOk(_, n) => n case Take(_) => s.idle[0] case _ => s.threads[e.th].conn
  }

  lemma HeldOnceKept(c: Config, s: State, e: Step)
    requires Placed(s) && Enabled(c, s, e) && Transfers(e)
    ensures Distinct(Apply(c, s, e).idle + Apply(c, s, e).hand)
    ensures forall th | th in Apply(c, s, e).threads :: HeldOnce(Apply(c, s, e), th)
  {
    var s', th, conn := Apply(c, s, e), e.th, Moving(s, e);
    assert HeldOnce(s, th);
    assert Somewhere(s, conn) <==> conn in s.dialled && conn !in s.shut;
    if e.Take? {
      Popped(s.idle, s.hand);
    } else if e.Push? {
      Joined(s.idle, s.hand, conn);
    }
    assert forall x | x != conn :: x in s'.idle <==> x in s.idle;
    forall o | o != th ensures !At(s, o, Holding(conn)) {
      assert o in s.threads ==> HeldOnce(s, o);
      assert !Somewhere(s, conn) ==> !At(s, o, Holding(conn));
    }
    forall o | o in s'.threads ensures HeldOnce(s', o) {
      if o != th {
        assert HeldOnce(s, o) && !At(s, o, Holding(conn));
      } else {
        forall p | p in s'.threads && p != th ensures s'.threads[p] != s'.threads[th] {
          assert !At(s, p, Holding(conn));
        }
      }
    }
  }

  lemma SomewhereKept(c: Config, s: State, e: Step, x: ConnId)
    requires Placed(s) && Enabled(c, s, e) && Transfers(e)
    ensures Somewhere(Apply(c, s, e), x) <==>
              if x == Moving(s, e) then !e.Discard? else Somewhere(s, x)
  {
    var s', th, conn := Apply(c, s, e), e.th, Moving(s, e);
    if x != conn {
      if e.Take? { assert s.idle == [conn] + s.idle[1..]; }
      assert x in s'.idle <==> x in s.idle;
      forall o ensures At(s', o, Holding(x)) <==> At(s, o, Holding(x)) {}
    } else if e.Discard? {
      assert HeldOnce(s, th);
      forall o ensures !At(s', o, Holding(x)) {
        assert o in s.threads && o != th ==> s.threads[o] != s.threads[th];
      }
    } else if e.Push? {
      assert conn in s'.idle;
    } else {
      assert At(s', th, Holding(conn));
    }
  }

  lemma PlacedKeptByThread(c: Config, s: State, e: Step)
    requires Placed(s) && Enabled(c, s, e) && Transfers(e)
    ensures Placed(Apply(c, s, e))
  {
    HeldOnceKept(c, s, e);
    var s', conn := Apply(c, s, e), Moving(s, e);
    if !e.DialOk? {
      if !e.Take? { assert At(s, e.th, Holding(conn)); }
      assert Somewhere(s, conn);
    }
    forall x ensures Somewhere(s', x) <==> x in s'.dialled && x !in s'.shut {
      assert Somewhere(s, x) <==> x in s.dialled && x !in s.shut;
      SomewhereKept(c, s, e, x);
    }
  }

  lemma PlacedKeptBySweeper(c: Config, s: State, e: Step)
    requires Placed(s) && Enabled(c, s, e)
    requires (e.SweepPop? && s.idle != []) || e.SweepPush?
    ensures Placed(Apply(c, s, e))
  {
    var s' := Apply(c, s, e);
    var conn := if e.SweepPop? then s.idle[0] else s.hand[0];
    if e.SweepPop? {
      Popped(s.idle, s.hand);
      Joined(s.idle[1..], s.hand, conn);
    } else {
      Swapped(s.idle, s.hand);
      Popped(s.hand, s.idle);
      Swapped(s.hand[1..], s.idle);
      Joined(s.idle, s.hand[1..], conn);
    }
    forall o | o in s'.threads ensures HeldOnce(s', o) { assert HeldOnce(s, o); }
    forall x ensures Somewhere(s', x) <==> x in s'.dialled && x !in s'.shut {
      assert Somewhere(s, x) <==> x in s.dialled && x !in s.shut;
      forall o ensures At(s', o, Holding(x)) <==> At(s, o, Holding(x)) {}
      if x == conn {
        forall o ensures !At(s, o, Holding(x)) { if o in s.threads { assert HeldOnce(s, o); } }
      }
    }
  }

  lemma PlacedKept(c: Config, s: State, e: Step)
    requires Placed(s) && Enabled(c, s, e)
    ensures Placed(Apply(c, s, e))
  {
    if Transfers(e) {
      PlacedKeptByThread(c, s, e);
    } else if (e.SweepPop? && s.idle != []) || e.SweepPush? {
      PlacedKeptBySweeper(c, s, e);
    } else {
      assert SamePlaces(s, Apply(c, s, e));
      PlacedKeptInPlace(s, Apply(c, s, e));
    }
  }

  lemma {:induction false} RunKeepsInv(c: Config, s: State, run: seq<Step>)
    requires Inv(c, s) && Valid(c, s, run)
    ensures Inv(c, Exec(c, s, run))
    decreases |run|
  {
    if run != [] {
      CountsKept(c, s, run[0]);
      PlacedKept(c, s, run[0]);
      RunKeepsInv(c, Apply(c, s, run[0]), run[1..]);
    }
  }

  /** In every interleaving: createdConns counts exactly what is idle, in the sweeper's
      hand, on loan or being dialled, every open connection is in exactly one of those
      places, the channel never overflows, and the limit is exceeded by less than k. */
  lemma PoolConserved(c: Config, run: seq<Step>)
    requires c.maxConns >= 1 && Valid(c, Init, run)
    ensures var s := Exec(c, Init, run);
            && s.created == |s.idle| + |s.hand| + |OnLoan(s)|
            && |s.idle| <= c.maxConns
            && s.created <= c.maxConns + c.k - 1
            && Placed(s)
  {
    assert Distinct(Init.idle + Init.hand);
    assert forall conn :: !Somewhere(Init, conn);
    RunKeepsInv(c, Init, run);
  }

  // ---- the bound is met ----

  /** n connections counted, m borrowers about to add, none idle. */
  predicate Crowd(s: State, n: nat, m: nat) {
    && s.created == n && s.idle == [] && !s.closed && |Window(s)| == m
    && forall th | th in s.threads :: !s.threads[th].Seen? && th < n + m
  }

  lemma {:induction false} ExecConcat(c: Config, s: State, a: seq<Step>, b: seq<Step>)
    requires Valid(c, s, a) && Valid(c, Exec(c, s, a), b)
    ensures Valid(c, s, a + b) && Exec(c, s, a + b) == Exec(c, Exec(c, s, a), b)
    decreases |a|
  {
    if a == [] {
      assert a + b == b;
    } else {
      assert (a + b)[0] == a[0] && (a + b)[1..] == a[1..] + b;
      ExecConcat(c, Apply(c, s, a[0]), a[1..], b);
    }
  }

  lemma Prepend(c: Config, s: State, e: Step, rest: seq<Step>)
    requires Enabled(c, s, e) && Valid(c, Apply(c, s, e), rest)
    ensures Valid(c, s, [e] + rest) && Exec(c, s, [e] + rest) == Exec(c, Apply(c, s, e), rest)
  {
  }

  /** One more borrower reads the count and finds no idle connection. */
  lemma Enter(c: Config, s: State, n: nat, m: nat) returns (run: seq<Step>)
    requires Crowd(s, n, m) && n < c.maxConns && m < c.k
    ensures Valid(c, s, run) && Crowd(Exec(c, s, run), n, m + 1)
  {
    var th := n + m;
    var s1 := Apply(c, s, Start(th));
    Moved(s, s1, th);
    var s2 := Apply(c, s1, Load(th));
    Moved(s1, s2, th);
    var s3 := Apply(c, s2, Check(th));
    Moved(s2, s3, th);
    assert Crowd(s3, n, m + 1);
    run := [Check(th)] + [];
    Prepend(c, s2, Check(th), []);
    Prepend(c, s1, Load(th), run);
    run := [Load(th)] + run;
    Prepend(c, s, Start(th), run);
    run := [Start(th)] + run;
  }

  lemma AddOne(c: Config, s: State, n: nat, m: nat) returns (run: seq<Step>)
    requires Crowd(s, n, m) && m > 0
    ensures Valid(c, s, run) && Crowd(Exec(c, s, run), n + 1, m - 1)
  {
    var th :| th in Window(s);
    Moved(s, Apply(c, s, Add(th)), th);
    Prepend(c, s, Add(th), []);
    run := [Add(th)] + [];
  }

  lemma {:induction false} Gather(c: Config, n: nat, m: nat) returns (run: seq<Step>)
    requires n < c.maxConns && m <= c.k && c.k >= 1
    ensures Valid(c, Init, run) && Crowd(Exec(c, Init, run), n, m)
    decreases n, m
  {
    if n == 0 && m == 0 {
      run := [];
      assert Window(Init) == {};
    } else if m > 0 {
      var front := Gather(c, n, m - 1);
      var last := Enter(c, Exec(c, Init, front), n, m - 1);
      ExecConcat(c, Init, front, last);
      run := front + last;
    } else {
      var front := Gather(c, n - 1, 1);
      var last := AddOne(c, Exec(c, Init, front), n - 1, 1);
      ExecConcat(c, Init, front, last);
      run := front + last;
    }
  }

  lemma {:induction false} AllAdd(c: Config, j: nat) returns (run: seq<Step>)
    requires c.maxConns >= 1 && c.k >= 1 && j <= c.k
    ensures Valid(c, Init, run) && Crowd(Exec(c, Init, run), c.maxConns - 1 + j, c.k - j)
  {
    if j == 0 {
      run := Gather(c, c.maxConns - 1, c.k);
    } else {
      var front := AllAdd(c, j - 1);
      var last := AddOne(c, Exec(c, Init, front), c.maxConns - 1 + (j - 1), c.k - (j - 1));
      ExecConcat(c, Init, front, last);
      run := front + last;
    }
  }

  /** k borrowers that all read the count before any adds overshoot the limit by k - 1. */
  lemma BoundIsReached(c: Config)
    requires c.maxConns >= 1 && c.k >= 1
    ensures exists run :: Valid(c, Init, run) && Exec(c, Init, run).created == c.maxConns + c.k - 1
  {
    var run := AllAdd(c, c.k);
    assert Exec(c, Init, run).created == c.maxConns + c.k - 1;
  }

  // ---- closing ----

  /** Past the closed check, not yet counted. */
  predicate Entering(s: State, th: ThreadId) {
    th in s.threads && (s.threads[th].Open? || s.threads[th].Seen? || s.threads[th].Checked?)
  }

  lemma {:induction false} StaysDrained(c: Config, s: State, run: seq<Step>)
    requires Counts(c, s) && s.closed && s.created == 0 && Valid(c, s, run)
    requires forall th :: !Entering(s, th)
    ensures Exec(c, s, run).created == 0
    decreases |run|
  {
    if run != [] {
      assert forall th | th in s.threads :: !Entering(s, th);
      assert OnLoan(s) == {};
      assert forall th | th in s.threads :: th !in OnLoan(s);
      CountsKept(c, s, run[0]);
      StaysDrained(c, Apply(c, s, run[0]), run[1..]);
    }
  }

  ghost predicate Revives(c: Config, s: State, run: seq<Step>) {
    Valid(c, s, run) && Exec(c, s, run).created > 0
  }

  lemma RevivedBy(c: Config, s: State, th: ThreadId) returns (run: seq<Step>)
    requires c.maxConns >= 1 && Counts(c, s) && s.created == 0 && Entering(s, th)
    requires s.threads[th].Open? ==> |Window(s)| < c.k
    ensures Revives(c, s, run)
    decreases if s.threads[th].Open? then 2 else if s.threads[th].Seen? then 1 else 0
  {
    if s.threads[th].Checked? {
      Prepend(c, s, Add(th), []);
      run := [Add(th)] + [];
    } else {
      var e := if s.threads[th].Open? then Load(th) else Check(th);
      CountsKept(c, s, e);
      var rest := RevivedBy(c, Apply(c, s, e), th);
      Prepend(c, s, e, rest);
      run := [e] + rest;
    }
  }

  /** Once closed and drained, which is when the sweeper quits, the pool stays empty
      exactly if no borrower is past the closed check but not counted yet. */
  lemma DrainedForGoodIff(c: Config, s: State)
    requires c.maxConns >= 1 && c.k >= 1 && Counts(c, s) && s.closed && s.created == 0
    ensures (exists run :: Revives(c, s, run)) <==> exists th :: Entering(s, th)
  {
    if th :| Entering(s, th) {
      if s.threads[th].Open? && |Window(s)| >= c.k {
        var o :| o in Window(s);
        var run := RevivedBy(c, s, o);
      } else {
        var run := RevivedBy(c, s, th);
      }
    } else {
      forall run ensures !Revives(c, s, run) {
        if Valid(c, s, run) { StaysDrained(c, s, run); }
      }
    }
  }
}

/** The pool object as one sender or one sweep at a time drives it. */
module SmtpPool {
  import opened Common
  import opened Sequences

  type ConnId = nat

  datatype Error = Eof | Net | Reply(code: int) | Other | PoolClosed | TimedOut

  predicate CanRetry(e: Error) { e.Eof? || e.Net? }

  /** What sending one message on a connection meets, command by command. */
  datatype Dialogue = Dialogue(
    badAddress: Option<Error>, mail: Option<Error>, rcpts: seq<Option<Error>>,
    data: Option<Error>, write: Option<Error>, close: Option<Error>)

  /** The first command that fails, in the order they are sent; the end of the message comes last. */
  function Failure(w: Dialogue): Option<Error> {
    if w.badAddress.Some? then w.badAddress
    else if w.mail.Some? then w.mail
    else if FirstOf(w.rcpts).Some? then FirstOf(w.rcpts)
    else if w.data.Some? then w.data
    else if w.write.Some? then w.write
    else w.close
  }

  function FirstOf(results: seq<Option<Error>>): (e: Option<Error>)
    ensures e.None? <==> forall i | 0 <= i < |results| :: results[i].None?
    ensures e.Some? ==> exists i :: 0 <= i < |results| && results[i] == e && forall j | 0 <= j < i :: results[j].None?
  {
    if results == [] then None
    else if results[0].Some? then results[0]
    else
      var e := FirstOf(results[1..]);
      assert forall i | 1 <= i < |results| :: results[i] == results[1..][i - 1];
      e
  }

  /** The whole message was written, and its end is about to be sent. */
  predicate Written(w: Dialogue) {
    w.badAddress.None? && w.mail.None? && (forall i | 0 <= i < |w.rcpts| :: w.rcpts[i].None?) && w.data.None?
        && w.write.None?
  }

  /** What the network and the clock do to one iteration of Send. */
  datatype Trial = Trial(
    cancelled: Option<Error>,   // ctx.Err() at the top of the loop
    dial: Option<Error>,
    wait: Option<Error>,        // what the select in borrowConn yields instead of a connection
    dialogue: Dialogue,
    reset: bool,                // RSET succeeds
    room: bool)                 // the select in returnConn picks the channel, if it has room

  /** What one try meets in a pool with room: an idle connection to wait for, or one to dial. */
  function BorrowError(t: Trial, idle: bool): Option<Error> { if idle then t.wait else t.dial }

  function Met(t: Trial, idle: bool): Option<Error> {
    if t.cancelled.Some? then t.cancelled
    else if BorrowError(t, idle).Some? then BorrowError(t, idle)
    else Failure(t.dialogue)
  }

  /** Send goes on to another try. */
  predicate Retried(t: Trial, idle: bool) {
    && t.cancelled.None?
    && if BorrowError(t, idle).Some? then CanRetry(BorrowError(t, idle).value)
       else t.dialogue.badAddress.Some? || (!Written(t.dialogue) && CanRetry(Failure(t.dialogue).value))
  }

  /** Nothing stands in the way of this try, in a pool with room. */
  predicate Unhindered(t: Trial) { t.cancelled.None? && t.dial.None? && t.wait.None? }

  /** The server takes the message. */
  predicate Accepts(w: Dialogue) {
    && w.badAddress.None? && w.mail.None? && (forall i | 0 <= i < |w.rcpts| :: w.rcpts[i].None?)
    && w.data.None? && w.write.None? && w.close.None?
  }

  /** The connection breaks before the message is ended. */
  predicate BreaksEarly(w: Dialogue) {
    w.badAddress.None? && !Written(w) && (Failure(w) == Some(Eof) || Failure(w) == Some(Net))
  }

  /** Whether a connection is idle after a try that began with n idle ones. */
  predicate IdleAfter(t: Trial, n: nat) {
    if BorrowError(t, n > 0).Some? then n > 0 else n > 1 || (!Broken(Failure(t.dialogue)) && t.reset && t.room)
  }

  /** After this error the connection must not be reused. */
  predicate Broken(e: Option<Error>) { e.Some? && !(e.value.Reply? && e.value.code != 421) }

  /** The connections a sweep leaves in place, in order. */
  function Fresh(q: seq<ConnId>, stale: set<ConnId>): seq<ConnId> {
    if q == [] then [] else Fresh(q[..|q| - 1], stale) + if q[|q| - 1] in stale then [] else [q[|q| - 1]]
  }

  lemma FreshStep(q: seq<ConnId>, i: nat, stale: set<ConnId>)
    requires i < |q|
    ensures Fresh(q[..i + 1], stale) == Fresh(q[..i], stale) + if q[i] in stale then [] else [q[i]]
  {
    assert q[..i + 1][..i] == q[..i];
  }

  /** A sweep keeps exactly the connections that are not stale, each once. */
  lemma {:induction false} FreshKeeps(q: seq<ConnId>, stale: set<ConnId>)
    ensures |Fresh(q, stale)| <= |q|
    ensures forall n :: n in Fresh(q, stale) <==> n in q && n !in stale
    ensures Distinct(q) ==> Distinct(Fresh(q, stale))
  {
    if q != [] {
      var front, last := q[..|q| - 1], q[|q| - 1];
      assert q == front + [last];
      FreshKeeps(front, stale);
    }
  }

  class Pool {
    var conns: seq<ConnId>
    var createdConns: int
    var closed: bool
    var dialled: nat
    const maxConns: nat
    const maxRetries: nat := 2
    ghost var lent: set<ConnId>

    /** createdConns accounts for every connection, idle or on loan, and none is both. */
    ghost predicate Valid()
      reads this
    {
      && createdConns == |conns| + |lent|
      && |conns| <= maxConns
      && Distinct(conns)
      && (forall n | n in conns :: n < dialled && n !in lent)
      && (forall n | n in lent :: n < dialled)
    }

    constructor (poolSize: int)
      ensures Valid() && conns == [] && lent == {} && !closed
      ensures maxConns == if poolSize < 1 then 1 else poolSize
    {
      conns, createdConns, closed, dialled, lent := [], 0, false, 0, {};
      maxConns := if poolSize < 1 then 1 else poolSize;
    }

    method BorrowConn(t: Trial) returns (conn: Option<ConnId>, err: Option<Error>)
      requires Valid()
      modifies this
      ensures Valid() && closed == old(closed)
      ensures conn.None? <==> err.Some?
      ensures closed ==> err == Some(PoolClosed)
      ensures conn.Some? ==> conn.value !in old(lent) && lent == old(lent) + {conn.value} && !closed
      ensures conn.None? ==> lent == old(lent) && conns == old(conns)
      ensures conn.Some? && old(conns) != [] ==> old(conns) == [conn.value] + conns
      ensures conn.Some? && old(conns) == [] ==>
                conns == [] && old(createdConns) < maxConns && conn.value == old(dialled)
      ensures !closed && old(conns) == [] && old(createdConns) < maxConns ==> err == t.dial
      ensures !closed && old(conns) != [] ==> err == t.wait
      ensures !closed && old(conns) == [] && old(createdConns) >= maxConns ==>
                err == if t.wait.Some? then t.wait else Some(TimedOut)
    {
      if closed { return None, Some(PoolClosed); }
      if createdConns < maxConns && |conns| == 0 {
        createdConns := createdConns + 1;
        if t.dial.Some? {
          createdConns := createdConns - 1;
          return None, t.dial;
        }
        conn, err := Some(dialled), None;
        lent := lent + {dialled};
        dialled := dialled + 1;
        return;
      }
      if t.wait.Some? || |conns| == 0 {
        return None, if t.wait.Some? then t.wait else Some(TimedOut);
      }
      var c := conns[0];
      assert conns == [c] + conns[1..];
      conns := conns[1..];
      lent := lent + {c};
      return Some(c), None;
    }

    /** Only a connection the server still answers on goes back, and only while there is room. */
    method ReturnConn(c: ConnId, lastErr: Option<Error>, reset: bool, room: bool) returns (kept: bool)
      requires Valid() && c in lent
      modifies this
      ensures Valid() && closed == old(closed)
      ensures lent == old(lent) - {c}
      ensures kept <==> !Broken(lastErr) && reset && room && |old(conns)| < maxConns
      ensures kept ==> lastErr.None? || (lastErr.value.Reply? && lastErr.value.code != 421)
      ensures conns == if kept then old(conns) + [c] else old(conns)
    {
      kept := !Broken(lastErr) && reset && room && |conns| < maxConns;
      lent := lent - {c};
      if kept {
        conns := conns + [c];
      } else {
        createdConns := createdConns - 1;
      }
    }

    /**
     One message on one connection. ended: the end of the complete message was sent, after
     which the server may have accepted it, so the message is never worth a retry.
     */
    method SendOnConn(w: Dialogue) returns (again: bool, err: Option<Error>, ended: bool)
      ensures ended <==> Written(w)
      ensures err == Failure(w)
      ensures again <==> w.badAddress.Some? || (!ended && CanRetry(err.value))
      ensures err.None? <==> Written(w) && w.close.None?
      ensures ended ==> !again && err == w.close
      ensures again ==> err.Some? && (CanRetry(err.value) || err == w.badAddress)
      ensures !again && !ended ==> err.Some? && !CanRetry(err.value)
    {
      if w.badAddress.Some? { return true, w.badAddress, false; }
      if w.mail.Some? { return CanRetry(w.mail.value), w.mail, false; }
      var i := 0;
      while i < |w.rcpts|
        invariant 0 <= i <= |w.rcpts| && forall j | 0 <= j < i :: w.rcpts[j].None?
        invariant FirstOf(w.rcpts) == FirstOf(w.rcpts[i..])
      {
        assert w.rcpts[i..][1..] == w.rcpts[i + 1..];
        if w.rcpts[i].Some? { return CanRetry(w.rcpts[i].value), w.rcpts[i], false; }
        i := i + 1;
      }
      if w.data.Some? { return CanRetry(w.data.value), w.data, false; }
      if w.write.Some? { return CanRetry(w.write.value), w.write, false; }
      if w.close.Some? { return false, w.close, true; }
      return false, None, true;
    }

    /** One pass of the loop in Send: borrow, send, return. */
    method TryOnce(t: Trial) returns (err: Option<Error>, again: bool, ended: bool)
      requires Valid()
      modifies this
      ensures Valid() && closed == old(closed) && lent == old(lent)
      ensures err.None? ==> ended && !again && Written(t.dialogue) && t.dialogue.close.None?
      ensures ended ==> !again && err == t.dialogue.close
      ensures again ==> err.Some?
      ensures !again && !ended ==> err.Some? && (err == t.cancelled || !CanRetry(err.value))
      ensures closed ==> !again && (t.cancelled.None? ==> err == Some(PoolClosed))
      ensures !closed && (old(conns) != [] || old(createdConns) < maxConns) ==>
                err == Met(t, old(conns) != []) && (again <==> Retried(t, old(conns) != []))
      ensures !closed && |lent| < maxConns && again ==> (conns != [] <==> IdleAfter(t, |old(conns)|))
    {
      if t.cancelled.Some? { return t.cancelled, false, false; }
      var conn, failed := BorrowConn(t);
      if failed.Some? { return failed, CanRetry(failed.value), false; }
      again, err, ended := SendOnConn(t.dialogue);
      ghost var left := |conns|;
      var kept := ReturnConn(conn.value, err, t.reset, t.room);
      assert |lent| < maxConns ==> (kept <==> !Broken(Failure(t.dialogue)) && t.reset && t.room);
    }

    /**
     Every connection borrowed is returned; at most one complete message is ended, however
     often Send tries, and success is one that the server accepted; and Send gives up before
     its last try only when cancelled, on an error not worth a retry, or once a message ended.
     In a pool with room the answer is what the first try meets, or, when that is worth a
     retry, what the second meets.
     */
    method Send(script: seq<Trial>) returns (err: Option<Error>, ended: nat, tries: nat)
      requires Valid() && |script| == maxRetries
      modifies this
      ensures Valid() && closed == old(closed)
      ensures lent == old(lent)
      ensures ended <= 1
      ensures err.None? ==>
                && ended == 1 && tries < maxRetries
                && Written(script[tries].dialogue) && script[tries].dialogue.close.None?
      ensures ended == 1 && err.Some? ==> tries < maxRetries && err == script[tries].dialogue.close
      ensures tries <= maxRetries
      ensures err.Some? && tries < maxRetries ==> err == script[tries].cancelled || !CanRetry(err.value) || ended == 1
      ensures closed && script[0].cancelled.None? ==> err == Some(PoolClosed)
      ensures !closed && (old(conns) != [] || old(createdConns) < maxConns) ==>
                var t, idle := script[0], old(conns) != [];
                && (tries == 0 <==> !Retried(t, idle))
                && (tries == 0 ==> err == Met(t, idle))
      ensures !closed && |lent| < maxConns && tries > 0 ==>
                var t, idle := script[1], IdleAfter(script[0], |old(conns)|);
                err == Met(t, idle) && tries == if Retried(t, idle) then 2 else 1
      ensures !closed && (old(conns) != [] || old(createdConns) < maxConns)
              && Unhindered(script[0]) && Accepts(script[0].dialogue) ==>
                err.None? && ended == 1 && tries == 0
      ensures !closed && |lent| < maxConns && Unhindered(script[0]) && BreaksEarly(script[0].dialogue)
              && Unhindered(script[1]) && Accepts(script[1].dialogue) ==>
                err.None? && ended == 1 && tries == 1
    {
      ended, err, tries := 0, None, 0;
      while tries < maxRetries
        invariant 0 <= tries <= maxRetries
        invariant Valid() && closed == old(closed) && lent == old(lent) && ended == 0
        invariant tries > 0 ==> err.Some? && !closed
        invariant tries == 0 ==> conns == old(conns) && createdConns == old(createdConns)
        invariant tries > 0 && (old(conns) != [] || old(createdConns) < maxConns) ==>
                    Retried(script[0], old(conns) != [])
        invariant tries == 1 && |lent| < maxConns ==> (conns != [] <==> IdleAfter(script[0], |old(conns)|))
        invariant tries == 2 && |lent| < maxConns ==>
                    var t, idle := script[1], IdleAfter(script[0], |old(conns)|);
                    Retried(t, idle) && err == Met(t, idle)
      {
        var again, finished;
        err, again, finished := TryOnce(script[tries]);
        if finished { ended := 1; }
        if !again { return; }
        tries := tries + 1;
      }
    }

    method Close()
      modifies this`closed
      ensures closed
    {
      closed := true;
    }

    /** The first half of a sweep: take everything out, closing what is stale or, once closed, all. */
    method TakeOut(stale: set<ConnId>) returns (active: seq<ConnId>)
      modifies this`conns, this`createdConns
      ensures conns == []
      ensures active == if closed then [] else Fresh(old(conns), stale)
      ensures createdConns == old(createdConns) - (|old(conns)| - |active|)
    {
      active := [];
      ghost var was, before := conns, createdConns;
      var i, num := 0, |conns|;
      while i < num
        invariant 0 <= i <= num == |was| && conns == was[i..]
        invariant active == if closed then [] else Fresh(was[..i], stale)
        invariant createdConns == before - (i - |active|)
      {
        FreshStep(was, i, stale);
        var c := conns[0];
        conns := conns[1..];
        assert was[i..][1..] == was[i + 1..];
        if closed || c in stale {
          createdConns := createdConns - 1;
        } else {
          active := active + [c];
        }
        i := i + 1;
      }
      assert was[..num] == was;
    }

    /** The second half: put the rest back, closing what no longer fits. */
    method PutBack(active: seq<ConnId>)
      requires |conns| <= maxConns
      modifies this`conns, this`createdConns
      ensures var n := if |active| <= maxConns - |old(conns)| then |active| else maxConns - |old(conns)|;
              conns == old(conns) + active[..n] && createdConns == old(createdConns) - (|active| - n)
      ensures old(conns) == [] && |active| <= maxConns ==> conns == active && createdConns == old(createdConns)
    {
      ghost var was, before := conns, createdConns;
      var k, n := 0, 0;
      while k < |active|
        invariant 0 <= n <= k <= |active| && n <= maxConns - |was|
        invariant n == k || n == maxConns - |was|
        invariant conns == was + active[..n]
        invariant createdConns == before - (k - n)
      {
        if |conns| < maxConns {
          conns := conns + [active[k]];
          n := n + 1;
        } else {
          createdConns := createdConns - 1;
        }
        k := k + 1;
      }
      assert active[..|active|] == active && [] + active == active;
    }

    /** One pass of sweepConns; stale holds the connections idle for too long. */
    method SweepConns(stale: set<ConnId>)
      requires Valid()
      modifies this`conns, this`createdConns
      ensures Valid()
      ensures closed ==> conns == [] && createdConns == |lent|
      ensures !closed ==> conns == Fresh(old(conns), stale)
    {
      FreshKeeps(conns, stale);
      var active := TakeOut(stale);
      PutBack(active);
    }
  }
}
