/**
 Revocations of super_admin that overlap: each counts the holders and then deletes its
 link, and other calls may run in between
 (internal/modules/rbac/application/command/revoke_role.go).
 */
module RbacRevocations {

  type UserId = nat
  type ThreadId = nat

  /** cleared: calls that passed the check, by the user they are about to revoke from. */
  datatype State = State(holders: set<UserId>, cleared: map<ThreadId, UserId>)

  datatype Step =
    | Check(th: ThreadId, user: UserId)
    | Delete(th: ThreadId)
    | Abandon(th: ThreadId)
    | Grant(user: UserId)

  /** At most k revocations at a time are between check and delete. */
  predicate Enabled(k: nat, s: State, e: Step) {
    match e
    case Check(th, _) => th !in s.cleared && |s.cleared| < k
    case Delete(th) => th in s.cleared
    case Abandon(th) => th in s.cleared
    case Grant(_) => true
  }

  /** The last holder's revocation is refused; a user who is not a holder passes. */
  predicate Passes(s: State, user: UserId) { user in s.holders ==> |s.holders| > 1 }

  function Apply(k: nat, s: State, e: Step): State
    requires Enabled(k, s, e)
  {
    match e
    case Check(th, user) => if Passes(s, user) then s.(cleared := s.cleared[th := user]) else s
    case Delete(th) => State(s.holders - {s.cleared[th]}, s.cleared - {th})
    case Abandon(th) => s.(cleared := s.cleared - {th})
    case Grant(user) => s.(holders := s.holders + {user})
  }

  predicate Valid(k: nat, s: State, run: seq<Step>)
    decreases |run|
  {
    run == [] || (Enabled(k, s, run[0]) && Valid(k, Apply(k, s, run[0]), run[1..]))
  }

  function Exec(k: nat, s: State, run: seq<Step>): State
    requires Valid(k, s, run)
    decreases |run|
  {
    if run == [] then s else Exec(k, Apply(k, s, run[0]), run[1..])
  }

  /** Every cleared revocation leaves a holder. */
  predicate Safe(s: State) {
    s.holders != {} && forall th | th in s.cleared :: s.holders - {s.cleared[th]} != {}
  }

  lemma SafeStep(k: nat, s: State, e: Step)
    requires k <= 1 && Safe(s) && |s.cleared| <= k && Enabled(k, s, e)
    ensures Safe(Apply(k, s, e)) && |Apply(k, s, e).cleared| <= k
  {
    var s' := Apply(k, s, e);
    if e.Check? && Passes(s, e.user) {
      assert s'.cleared.Keys == s.cleared.Keys + {e.th};
      if e.user in s.holders {
        assert |s.holders - {e.user}| == |s.holders| - 1;
      }
    } else if e.Delete? || e.Abandon? {
      assert s.cleared.Keys == {e.th} by { OnlyOne(s.cleared.Keys, e.th); }
      assert s'.cleared.Keys == {};
    }
  }

  lemma OnlyOne(ids: set<nat>, id: nat)
    requires |ids| <= 1 && id in ids
    ensures ids == {id}
  {
    assert |ids - {id}| == 0;
  }

  lemma {:induction false} SafeRun(k: nat, s: State, run: seq<Step>)
    requires k <= 1 && Safe(s) && |s.cleared| <= k && Valid(k, s, run)
    ensures Safe(Exec(k, s, run))
    decreases |run|
  {
    if run != [] {
      SafeStep(k, s, run[0]);
      SafeRun(k, Apply(k, s, run[0]), run[1..]);
    }
  }

  ghost predicate Empties(k: nat, s: State, run: seq<Step>) { Valid(k, s, run) && Exec(k, s, run).holders == {} }

  lemma Prepend(k: nat, s: State, e: Step, rest: seq<Step>)
    requires Enabled(k, s, e) && Valid(k, Apply(k, s, e), rest)
    ensures Valid(k, s, [e] + rest) && Exec(k, s, [e] + rest) == Exec(k, Apply(k, s, e), rest)
  {
    assert ([e] + rest)[1..] == rest;
  }

  /** Two overlapping revocations of the last two holders both pass the check. */
  lemma LastTwo(k: nat, a: UserId, b: UserId) returns (run: seq<Step>)
    requires k >= 2 && a != b
    ensures Empties(k, State({a, b}, map[]), run)
  {
    var s := State({a, b}, map[]);
    var s1 := Apply(k, s, Check(0, a));
    assert s1 == State({a, b}, map[0 := a]);
    var s2 := Apply(k, s1, Check(1, b));
    assert s2 == State({a, b}, map[0 := a, 1 := b]);
    var s3 := Apply(k, s2, Delete(0));
    assert s3.holders == {b} && s3.cleared == map[1 := b];
    var s4 := Apply(k, s3, Delete(1));
    assert s4.holders == {};
    Prepend(k, s3, Delete(1), []);
    Prepend(k, s2, Delete(0), [Delete(1)] + []);
    Prepend(k, s1, Check(1, b), [Delete(0)] + ([Delete(1)] + []));
    Prepend(k, s, Check(0, a), [Check(1, b)] + ([Delete(0)] + ([Delete(1)] + [])));
    run := [Check(0, a)] + ([Check(1, b)] + ([Delete(0)] + ([Delete(1)] + [])));
  }

  lemma OneDown(k: nat, holders: set<UserId>, a: UserId, rest: seq<Step>) returns (run: seq<Step>)
    requires k >= 1 && a in holders && |holders| > 1 && Empties(k, State(holders - {a}, map[]), rest)
    ensures Empties(k, State(holders, map[]), run)
  {
    var s := State(holders, map[]);
    var s1 := Apply(k, s, Check(0, a));
    assert s1 == State(holders, map[0 := a]);
    assert Apply(k, s1, Delete(0)) == State(holders - {a}, map[]);
    Prepend(k, s1, Delete(0), rest);
    Prepend(k, s, Check(0, a), [Delete(0)] + rest);
    run := [Check(0, a)] + ([Delete(0)] + rest);
  }

  /** One revocation after another takes all but the last two away. */
  lemma {:induction false} DownToNone(k: nat, holders: set<UserId>) returns (run: seq<Step>)
    requires k >= 2 && |holders| >= 2
    ensures Empties(k, State(holders, map[]), run)
    decreases |holders|
  {
    var a :| a in holders;
    if |holders| == 2 {
      var others := holders - {a};
      assert |others| == 1 && others != {};
      var b :| b in others;
      OnlyOne(others, b);
      assert holders == {a} + others == {a, b};
      run := LastTwo(k, a, b);
    } else {
      var rest := DownToNone(k, holders - {a});
      run := OneDown(k, holders, a, rest);
    }
  }

  /** The last super_admin can be lost exactly when two revocations may overlap, and then
      any number of holders can be brought to none. */
  lemma LastHolderLostIff(k: nat, holders: set<UserId>)
    requires |holders| >= 2
    ensures (exists run :: Empties(k, State(holders, map[]), run)) <==> k >= 2
  {
    if k >= 2 {
      var run := DownToNone(k, holders);
    } else {
      forall run ensures !Empties(k, State(holders, map[]), run) {
        if Valid(k, State(holders, map[]), run) { SafeRun(k, State(holders, map[]), run); }
      }
    }
  }
}
