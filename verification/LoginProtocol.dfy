/**
 Logins of one user that overlap, with refreshes beside them: a login lists the active
 sessions, evicts the oldest of those it listed, and saves its own
 (internal/modules/auth/application/command/issuer.go); a refresh checks its token, revokes
 it by compare-and-set, and saves the successor (refresh.go in the same directory). Between
 those two statements the session has no row that a listing or an eviction could find.
 */
module LoginProtocol {
  import opened Sequences

  type FamilyId = nat
  type ThreadId = nat

  /** At most k logins at a time are between listing and saving, and at most r refreshes beside them. */
  datatype Config = Config(cap: nat, k: nat, r: nat)

  /**
   todo: the listed sessions a login still has to evict before it saves.
   checked: the sessions a refresh has found a live token of and may still rotate.
   rotating: those whose token a refresh has revoked and whose successor is not saved yet.
   */
  datatype State = State(active: set<FamilyId>, known: set<FamilyId>, todo: map<ThreadId, seq<FamilyId>>,
                         checked: set<FamilyId>, rotating: set<FamilyId>)

  datatype Step =
    | List(th: ThreadId, listing: seq<FamilyId>)
    | Evict(th: ThreadId)
    | Save(th: ThreadId, f: FamilyId)
    | Abandon(th: ThreadId)
    | Check(f: FamilyId)
    | Win(f: FamilyId)
    | Return(f: FamilyId)
    | Stop(f: FamilyId)
    | Expires(f: FamilyId)
    | SignOut(f: FamilyId)

  const Init := State({}, {}, map[], {}, {})

  function Excess(c: Config, n: nat): (e: nat)
    requires c.cap >= 1
    ensures e <= n && n - e <= c.cap - 1
  {
    if n >= c.cap then n - (c.cap - 1) else 0
  }

  function Refreshing(s: State): set<FamilyId> { s.checked + s.rotating }

  /** listing is any order of the active sessions; families are new when saved. */
  predicate Enabled(c: Config, s: State, e: Step) {
    match e
    case List(th, listing) =>
      && th !in s.todo && |s.todo| < c.k && |Refreshing(s)| <= c.r
      && Distinct(listing) && Elements(listing) == s.active
    case Evict(th) => th in s.todo && s.todo[th] != []
    case Save(th, f) => th in s.todo && s.todo[th] == [] && f !in s.known
    case Abandon(th) => th in s.todo
    case Check(f) => f in s.active && (s.todo == map[] || |Refreshing(s) + {f}| <= c.r)
    case Win(f) => f in s.checked
    case Return(f) => f in s.rotating
    case Stop(f) => f in Refreshing(s)
    case Expires(_) => true
    case SignOut(_) => true
  }

  /** RevokeFamily: the compare-and-set of a refresh that has checked the token will fail. */
  function Revoked(s: State, f: FamilyId): State { s.(active := s.active - {f}, checked := s.checked - {f}) }

  /** The compare-and-set does not look at the expiry again, so Win needs no active row. */
  function Apply(c: Config, s: State, e: Step): State
    requires c.cap >= 1 && Enabled(c, s, e)
  {
    match e
    case List(th, listing) => s.(todo := s.todo[th := listing[..Excess(c, |listing|)]])
    case Evict(th) => Revoked(s, s.todo[th][0]).(todo := s.todo[th := s.todo[th][1..]])
    case Save(th, f) => s.(active := s.active + {f}, known := s.known + {f}, todo := s.todo - {th})
    case Abandon(th) => s.(todo := s.todo - {th})
    case Check(f) => s.(checked := s.checked + {f})
    case Win(f) => Revoked(s, f).(rotating := s.rotating + {f})
    case Return(f) => s.(active := s.active + {f}, rotating := s.rotating - {f})
    case Stop(f) => s.(checked := s.checked - {f}, rotating := s.rotating - {f})
    case Expires(f) => s.(active := s.active - {f})
    case SignOut(f) => Revoked(s, f)
  }

  predicate Valid(c: Config, s: State, run: seq<Step>)
    requires c.cap >= 1
    decreases |run|
  {
    run == [] || (Enabled(c, s, run[0]) && Valid(c, Apply(c, s, run[0]), run[1..]))
  }

  function Exec(c: Config, s: State, run: seq<Step>): State
    requires c.cap >= 1 && Valid(c, s, run)
    decreases |run|
  {
    if run == [] then s else Exec(c, Apply(c, s, run[0]), run[1..])
  }

  predicate Doomed(s: State, logins: set<ThreadId>, f: FamilyId) {
    exists th :: th in logins && th in s.todo && f in s.todo[th]
  }

  /** The sessions, active or about to come back, that none of the given logins is about to evict. */
  function Spared(s: State, logins: set<ThreadId>): set<FamilyId> {
    set f | f in s.active + Refreshing(s) && !Doomed(s, logins, f)
  }

  predicate Fits(c: Config, s: State, logins: set<ThreadId>) {
    |Spared(s, logins)| + |logins| <= c.cap + c.k - 1
  }

  /** Whichever of the logins under way go through, their sessions and the spared ones fit. */
  ghost predicate Inv(c: Config, s: State) {
    && |s.todo| <= c.k
    && (s.todo != map[] ==> Refreshing(s) == {})
    && forall logins | logins <= s.todo.Keys :: Fits(c, s, logins)
  }

  /** What the login that lists means to leave of the sessions it saw. */
  lemma ListerFits(c: Config, s: State, th: ThreadId, listing: seq<FamilyId>, logins: set<ThreadId>)
    requires c.cap >= 1 && c.r == 0 && Inv(c, s) && Enabled(c, s, List(th, listing)) && th in logins
    requires logins <= s.todo.Keys + {th}
    ensures Fits(c, Apply(c, s, List(th, listing)), logins)
  {
    var s' := Apply(c, s, List(th, listing));
    var e := Excess(c, |listing|);
    DistinctSplit(listing, e);
    forall f | f in Spared(s', logins) ensures f in Elements(listing) - Elements(listing[..e]) {
      assert !Doomed(s', logins, f);
      assert f !in s'.todo[th];
    }
    SubsetSmaller(Spared(s', logins), Elements(listing[e..]));
    SubsetSmaller(logins, s.todo.Keys + {th});
    assert |s.todo.Keys + {th}| == |s.todo| + 1;
  }

  lemma ListKeepsFits(c: Config, s: State, th: ThreadId, listing: seq<FamilyId>, logins: set<ThreadId>)
    requires c.cap >= 1 && c.r == 0 && Inv(c, s) && Enabled(c, s, List(th, listing))
    requires logins <= s.todo.Keys + {th}
    ensures Fits(c, Apply(c, s, List(th, listing)), logins)
  {
    var s' := Apply(c, s, List(th, listing));
    if th in logins {
      ListerFits(c, s, th, listing, logins);
    } else {
      assert Fits(c, s, logins);
      forall f ensures Doomed(s', logins, f) <==> Doomed(s, logins, f) {}
      assert Spared(s', logins) == Spared(s, logins);
    }
  }

  lemma EvictKeepsFits(c: Config, s: State, th: ThreadId, logins: set<ThreadId>)
    requires c.cap >= 1 && c.r == 0 && Inv(c, s) && Enabled(c, s, Evict(th)) && logins <= s.todo.Keys
    ensures Fits(c, Apply(c, s, Evict(th)), logins)
  {
    var s' := Apply(c, s, Evict(th));
    assert Fits(c, s, logins);
    assert s.todo[th] == [s.todo[th][0]] + s.todo[th][1..];
    forall f | f in Spared(s', logins) ensures f in Spared(s, logins) {
      assert !Doomed(s', logins, f);
      assert forall o | o in logins && o in s.todo :: f !in s'.todo[o];
    }
    SubsetSmaller(Spared(s', logins), Spared(s, logins));
  }

  /** A login with nothing left to evict dooms nothing. */
  lemma IdleDoomsNothing(s: State, s': State, th: ThreadId, logins: set<ThreadId>, f: FamilyId)
    requires th in s.todo && s.todo[th] == [] && s'.todo == s.todo - {th} && th !in logins
    ensures Doomed(s, logins + {th}, f) ==> Doomed(s', logins, f)
  {
    if Doomed(s, logins + {th}, f) {
      var o :| o in logins + {th} && o in s.todo && f in s.todo[o];
      assert o in logins && o in s'.todo;
    }
  }

  lemma SaveKeepsFits(c: Config, s: State, th: ThreadId, f: FamilyId, logins: set<ThreadId>)
    requires c.cap >= 1 && c.r == 0 && Inv(c, s) && Enabled(c, s, Save(th, f)) && logins <= s.todo.Keys - {th}
    ensures Fits(c, Apply(c, s, Save(th, f)), logins)
  {
    var s' := Apply(c, s, Save(th, f));
    assert Fits(c, s, logins + {th});
    forall g | g != f && g in Spared(s', logins) ensures g in Spared(s, logins + {th}) {
      IdleDoomsNothing(s, s', th, logins, g);
    }
    SubsetSmaller(Spared(s', logins), Spared(s, logins + {th}) + {f});
  }

  /** Every other step, a refresh's included, leaves the sessions as they are or takes some away. */
  lemma OtherKeepsFits(c: Config, s: State, e: Step, logins: set<ThreadId>)
    requires c.cap >= 1 && Inv(c, s) && Enabled(c, s, e) && !e.List? && !e.Evict? && !e.Save?
    requires logins <= Apply(c, s, e).todo.Keys
    ensures Fits(c, Apply(c, s, e), logins)
  {
    var s' := Apply(c, s, e);
    assert Fits(c, s, logins);
    assert s'.active + Refreshing(s') <= s.active + Refreshing(s);
    forall f ensures Doomed(s', logins, f) <==> Doomed(s, logins, f) {}
    SubsetSmaller(Spared(s', logins), Spared(s, logins));
  }

  lemma TodoBounded(c: Config, s: State, e: Step)
    requires c.cap >= 1 && |s.todo| <= c.k && Enabled(c, s, e)
    ensures |Apply(c, s, e).todo| <= c.k
  {
    var before, after := s.todo.Keys, Apply(c, s, e).todo.Keys;
    assert |Apply(c, s, e).todo| == |after| && |s.todo| == |before|;
    if e.List? {
      assert after == before + {e.th};
    } else {
      SubsetSmaller(after, before);
    }
  }

  /** A refresh neither begins beside a login nor is under way when one lists. */
  lemma TodoAfter(c: Config, s: State, e: Step)
    requires c.cap >= 1 && c.r == 0 && Inv(c, s) && Enabled(c, s, e)
    ensures var s' := Apply(c, s, e); |s'.todo| <= c.k && (s'.todo != map[] ==> Refreshing(s') == {})
  {
    TodoBounded(c, s, e);
    var s' := Apply(c, s, e);
    if e.Check? {
      assert e.f in Refreshing(s) + {e.f};
    } else {
      assert Refreshing(s') <= Refreshing(s);
      assert s'.todo != map[] && s.todo == map[] ==> e.List?;
    }
  }

  lemma StepKeepsInv(c: Config, s: State, e: Step)
    requires c.cap >= 1 && c.r == 0 && Inv(c, s) && Enabled(c, s, e)
    ensures Inv(c, Apply(c, s, e))
  {
    var s' := Apply(c, s, e);
    forall logins | logins <= s'.todo.Keys ensures Fits(c, s', logins) {
      match e
      case List(th, listing) => ListKeepsFits(c, s, th, listing, logins);
      case Evict(th) => EvictKeepsFits(c, s, th, logins);
      case Save(th, f) => SaveKeepsFits(c, s, th, f, logins);
      case _ => OtherKeepsFits(c, s, e, logins);
    }
    TodoAfter(c, s, e);
  }

  lemma {:induction false} RunKeepsInv(c: Config, s: State, run: seq<Step>)
    requires c.cap >= 1 && c.r == 0 && Inv(c, s) && Valid(c, s, run)
    ensures Inv(c, Exec(c, s, run))
    decreases |run|
  {
    if run != [] {
      StepKeepsInv(c, s, run[0]);
      RunKeepsInv(c, Apply(c, s, run[0]), run[1..]);
    }
  }

  /**
   While no refresh runs beside a login, k logins that overlap never exceed the cap by k or
   more, the sessions that are about to come back included.
   */
  lemma OverlapBounded(c: Config, run: seq<Step>)
    requires c.cap >= 1 && c.k >= 1 && c.r == 0 && Valid(c, Init, run)
    ensures var s := Exec(c, Init, run); |s.active + Refreshing(s)| <= c.cap + c.k - 1
  {
    forall logins | logins <= Init.todo.Keys ensures Fits(c, Init, logins) {
      assert logins == {} && Spared(Init, logins) == {};
    }
    RunKeepsInv(c, Init, run);
    var s := Exec(c, Init, run);
    assert Fits(c, s, {});
    assert Spared(s, {}) == s.active + Refreshing(s);
  }

  // ---------------------------------------------------------------------------
  // The bound is met
  // ---------------------------------------------------------------------------

  lemma {:induction false} ExecSnoc(c: Config, s: State, run: seq<Step>, e: Step)
    requires c.cap >= 1 && Valid(c, s, run) && Enabled(c, Exec(c, s, run), e)
    ensures Valid(c, s, run + [e])
    ensures Exec(c, s, run + [e]) == Apply(c, Exec(c, s, run), e)
    decreases |run|
  {
    if run == [] {
      assert [e][1..] == [];
    } else {
      ExecSnoc(c, Apply(c, s, run[0]), run[1..], e);
      assert (run + [e])[1..] == run[1..] + [e];
    }
  }

  /** m logins have listed, with nothing to evict, and n sessions are active. */
  predicate Crowd(s: State, n: nat, m: nat) {
    && |s.active| == n && |s.todo| == m && s.active <= s.known && Refreshing(s) == {}
    && (forall th | th in s.todo :: s.todo[th] == [])
  }

  lemma {:induction false} ListingOf(active: set<FamilyId>) returns (l: seq<FamilyId>)
    ensures Distinct(l) && Elements(l) == active
    decreases active
  {
    l := [];
    if f :| f in active {
      l := ListingOf(active - {f});
      ElementsSnoc(l, f);
      assert f !in Elements(l);
      l := l + [f];
    }
  }

  lemma ListedCrowd(s: State, n: nat, m: nat, th: ThreadId)
    requires Crowd(s, n, m) && th !in s.todo
    ensures Crowd(s.(todo := s.todo[th := []]), n, m + 1)
  {
    var todo := s.todo[th := []];
    assert todo.Keys == s.todo.Keys + {th};
    assert |todo| == |todo.Keys| && |s.todo| == |s.todo.Keys|;
  }

  lemma OneLists(c: Config, run: seq<Step>, n: nat, m: nat) returns (run': seq<Step>)
    requires c.cap >= 1 && Valid(c, Init, run) && Crowd(Exec(c, Init, run), n, m) && n < c.cap && m < c.k
    ensures Valid(c, Init, run') && Crowd(Exec(c, Init, run'), n, m + 1)
  {
    var s := Exec(c, Init, run);
    var l := ListingOf(s.active);
    DistinctSize(l);
    var th := FreshNat(s.todo.Keys);
    assert l[..0] == [] && Excess(c, |l|) == 0;
    var e := List(th, l);
    assert Apply(c, s, e) == s.(todo := s.todo[th := []]);
    ListedCrowd(s, n, m, th);
    ExecSnoc(c, Init, run, e);
    run' := run + [e];
  }

  lemma OneSaves(c: Config, run: seq<Step>, n: nat, m: nat) returns (run': seq<Step>)
    requires c.cap >= 1 && Valid(c, Init, run) && Crowd(Exec(c, Init, run), n, m) && m > 0
    ensures Valid(c, Init, run') && Crowd(Exec(c, Init, run'), n + 1, m - 1)
  {
    var s := Exec(c, Init, run);
    var f := FreshNat(s.known);
    assert s.todo.Keys != {};
    var th :| th in s.todo.Keys;
    var e := Save(th, f);
    ExecSnoc(c, Init, run, e);
    run' := run + [e];
    assert Apply(c, s, e).todo.Keys == s.todo.Keys - {th};
  }

  /** First one login after another up to one below the cap, then all k at once. */
  lemma {:induction false} Gather(c: Config, n: nat, m: nat) returns (run: seq<Step>)
    requires c.cap >= 1 && n < c.cap && m <= c.k && c.k >= 1
    ensures Valid(c, Init, run) && Crowd(Exec(c, Init, run), n, m)
    decreases n, m
  {
    if n == 0 && m == 0 {
      run := [];
    } else if m > 0 {
      run := Gather(c, n, m - 1);
      run := OneLists(c, run, n, m - 1);
    } else {
      run := Gather(c, n - 1, 1);
      run := OneSaves(c, run, n - 1, 1);
    }
  }

  lemma {:induction false} AllSave(c: Config, j: nat) returns (run: seq<Step>)
    requires c.cap >= 1 && c.k >= 1 && j <= c.k
    ensures Valid(c, Init, run) && Crowd(Exec(c, Init, run), c.cap - 1 + j, c.k - j)
  {
    if j == 0 {
      run := Gather(c, c.cap - 1, c.k);
    } else {
      run := AllSave(c, j - 1);
      run := OneSaves(c, run, c.cap - 1 + (j - 1), c.k - (j - 1));
    }
  }

  // ---------------------------------------------------------------------------
  // One refresh beside one login: no bound
  // ---------------------------------------------------------------------------

  /** No call is under way and n sessions are active. */
  predicate Quiet(s: State, n: nat) {
    s.todo == map[] && Refreshing(s) == {} && s.active <= s.known && |s.active| == n
  }

  /** The one login under way has these sessions left to evict; nothing else is under way. */
  function Evicting(active: set<FamilyId>, known: set<FamilyId>, left: seq<FamilyId>): State {
    State(active, known, map[0 := left], {}, {})
  }

  /** A session that is being rotated while the login evicts it comes back unharmed. */
  lemma OneDodges(c: Config, run: seq<Step>, active: set<FamilyId>, known: set<FamilyId>, left: seq<FamilyId>)
      returns (run': seq<Step>)
    requires c.cap >= 1 && c.r >= 1 && Valid(c, Init, run) && Exec(c, Init, run) == Evicting(active, known, left)
    requires left != [] && left[0] in active
    ensures Valid(c, Init, run') && Exec(c, Init, run') == Evicting(active, known, left[1..])
  {
    var f := left[0];
    assert {} + {} + {f} == {f};
    ExecSnoc(c, Init, run, Check(f));
    run' := run + [Check(f)];
    assert Exec(c, Init, run') == State(active, known, map[0 := left], {f}, {});
    ExecSnoc(c, Init, run', Win(f));
    run' := run' + [Win(f)];
    assert Exec(c, Init, run') == State(active - {f}, known, map[0 := left], {}, {f});
    ExecSnoc(c, Init, run', Evict(0));
    run' := run' + [Evict(0)];
    assert Exec(c, Init, run') == State(active - {f}, known, map[0 := left[1..]], {}, {f});
    ExecSnoc(c, Init, run', Return(f));
    run' := run' + [Return(f)];
    assert active - {f} + {f} == active;
  }

  lemma {:induction false} AllDodge(c: Config, run: seq<Step>, active: set<FamilyId>, known: set<FamilyId>,
                                    left: seq<FamilyId>) returns (run': seq<Step>)
    requires c.cap >= 1 && c.r >= 1 && Valid(c, Init, run) && Exec(c, Init, run) == Evicting(active, known, left)
    requires forall f | f in left :: f in active
    ensures Valid(c, Init, run') && Exec(c, Init, run') == Evicting(active, known, [])
    decreases |left|
  {
    run' := run;
    if left != [] {
      run' := OneDodges(c, run, active, known, left);
      run' := AllDodge(c, run', active, known, left[1..]);
    }
  }

  lemma Lists(c: Config, run: seq<Step>, n: nat) returns (run': seq<Step>, left: seq<FamilyId>)
    requires c.cap >= 1 && c.k >= 1 && Valid(c, Init, run) && Quiet(Exec(c, Init, run), n)
    ensures var s := Exec(c, Init, run);
            && Valid(c, Init, run') && Exec(c, Init, run') == Evicting(s.active, s.known, left)
            && forall f | f in left :: f in s.active
  {
    var s := Exec(c, Init, run);
    assert s.checked == {} && s.rotating == {};
    var l := ListingOf(s.active);
    left := l[..Excess(c, |l|)];
    ExecSnoc(c, Init, run, List(0, l));
    run' := run + [List(0, l)];
    forall f | f in left ensures f in s.active { assert f in Elements(l); }
  }

  lemma OneMore(c: Config, run: seq<Step>, n: nat) returns (run': seq<Step>)
    requires c.cap >= 1 && c.k >= 1 && c.r >= 1 && Valid(c, Init, run) && Quiet(Exec(c, Init, run), n)
    ensures Valid(c, Init, run') && Quiet(Exec(c, Init, run'), n + 1)
  {
    var s := Exec(c, Init, run);
    var left;
    run', left := Lists(c, run, n);
    run' := AllDodge(c, run', s.active, s.known, left);
    var f := FreshNat(s.known);
    ExecSnoc(c, Init, run', Save(0, f));
    run' := run' + [Save(0, f)];
    assert Exec(c, Init, run').todo == map[];
  }

  /** One login and one refresh at a time reach any number of sessions. */
  lemma {:induction false} NoBoundBesideRefresh(c: Config, n: nat) returns (run: seq<Step>)
    requires c.cap >= 1 && c.k >= 1 && c.r >= 1
    ensures Valid(c, Init, run) && Quiet(Exec(c, Init, run), n)
  {
    run := [];
    if n > 0 {
      run := NoBoundBesideRefresh(c, n - 1);
      run := OneMore(c, run, n - 1);
    }
  }

  ghost predicate Reaches(c: Config, n: nat)
    requires c.cap >= 1
  {
    exists run :: Valid(c, Init, run) && |Exec(c, Init, run).active| == n
  }

  /**
   The cap holds in every interleaving exactly when logins overlap neither each other nor
   refreshes. Without refreshes beside them, k logins reach cap + k - 1 sessions; with one
   refresh beside them, logins one at a time reach any number.
   */
  lemma CapHoldsIff(c: Config)
    requires c.cap >= 1 && c.k >= 1
    ensures (forall run | Valid(c, Init, run) :: |Exec(c, Init, run).active| <= c.cap) <==> c.k == 1 && c.r == 0
    ensures Reaches(c, c.cap + c.k - 1)
    ensures (forall n: nat :: Reaches(c, n)) <==> c.r >= 1
  {
    var crowd := AllSave(c, c.k);
    assert |Exec(c, Init, crowd).active| == c.cap + c.k - 1;
    if c.r == 0 {
      forall run | Valid(c, Init, run) ensures |Exec(c, Init, run).active| <= c.cap + c.k - 1 {
        OverlapBounded(c, run);
        var s := Exec(c, Init, run);
        SubsetSmaller(s.active, s.active + Refreshing(s));
      }
      assert !Reaches(c, c.cap + c.k);
    } else {
      forall n: nat ensures Reaches(c, n) {
        var run := NoBoundBesideRefresh(c, n);
        assert Quiet(Exec(c, Init, run), n);
      }
      var many := NoBoundBesideRefresh(c, c.cap + 1);
      assert |Exec(c, Init, many).active| == c.cap + 1;
    }
  }
}
