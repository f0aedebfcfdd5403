/**
 What a row that waits in the queue can be made to wait for: claim takes the least eligible
 row by (available_at, created_at), so only the rows that were before it can be claimed
 ahead of it, each of them once unless a worker loses it.
 */
module QueueFairness {
  import opened Clock
  import opened Sequences
  import opened QueueTable
  import opened QueueProtocol

  /** The rows that claim may prefer to id, or id itself. */
  function Rivals(rows: Table, id: JobId): set<JobId>
    requires id in rows
  {
    set k | k in rows && !OrderedBefore(rows[id], rows[k])
  }

  predicate Known(s: State) { s.rows.Keys <= s.budget.Keys }

  lemma StepNeverOvertakes(c: Config, s: State, e: Step, id: JobId)
    requires Known(s) && Enabled(c, s, e)
    requires id in s.rows && s.rows[id].availableAt < Unix(s.now)
    ensures Known(Apply(c, s, e)) && s.now <= Apply(c, s, e).now
    ensures id in Apply(c, s, e).rows && s.rows[id].availableAt == Apply(c, s, e).rows[id].availableAt ==>
              Rivals(Apply(c, s, e).rows, id) <= Rivals(s.rows, id)
  {
  }

  /** Throughout the run id stays in the table and is not rescheduled. */
  predicate Waits(c: Config, s: State, run: seq<Step>, id: JobId, availableAt: int)
    requires Valid(c, s, run)
    decreases |run|
  {
    && id in s.rows && s.rows[id].availableAt == availableAt
    && (run == [] || Waits(c, Apply(c, s, run[0]), run[1..], id, availableAt))
  }

  /**
   No overtaking: from the moment the clock second has passed a row's available_at,
   for as long as that row is not rescheduled, whatever is claimed while that row is
   eligible is one of the rivals it had at that moment, however many jobs are
   enqueued, claimed, released, finished or abandoned meanwhile.
   */
  lemma {:induction false} NeverOvertaken(c: Config, s: State, run: seq<Step>, id: JobId)
    requires Known(s) && Valid(c, s, run)
    requires id in s.rows && s.rows[id].availableAt < Unix(s.now)
    requires Waits(c, s, run, id, s.rows[id].availableAt)
    ensures id in Exec(c, s, run).rows
    ensures Rivals(Exec(c, s, run).rows, id) <= Rivals(s.rows, id)
    ensures forall w, k | Enabled(c, Exec(c, s, run), Claim(w, k))
                          && Eligible(Exec(c, s, run).rows[id], Exec(c, s, run).workers[w].reading) ::
              k in Rivals(s.rows, id)
    decreases |run|
  {
    if run != [] {
      StepNeverOvertakes(c, s, run[0], id);
      UnixMonotone(s.now, Apply(c, s, run[0]).now);
      NeverOvertaken(c, Apply(c, s, run[0]), run[1..], id);
    }
  }

  // ---------------------------------------------------------------------------
  // How often a waiting row is passed over
  // ---------------------------------------------------------------------------

  /** The rivals that no worker holds. */
  function FreeRivals(s: State, id: JobId): set<JobId>
    requires id in s.rows
  {
    set k | k in Rivals(s.rows, id) && k != id && !Held(s, k)
  }

  /** Another job is claimed by a worker to which id is eligible. */
  predicate Overtakes(c: Config, s: State, e: Step, id: JobId)
    requires Enabled(c, s, e) && id in s.rows
  {
    e.Claim? && e.id != id && Eligible(s.rows[id], s.workers[e.w].reading)
  }

  function Overtakings(c: Config, s: State, run: seq<Step>, id: JobId, availableAt: int): nat
    requires Valid(c, s, run) && Waits(c, s, run, id, availableAt)
    decreases |run|
  {
    if run == [] then 0
    else
      (if Overtakes(c, s, run[0], id) then 1 else 0)
      + Overtakings(c, Apply(c, s, run[0]), run[1..], id, availableAt)
  }

  /** The crashes and lost final writes of a run. */
  function Losses(run: seq<Step>): nat {
    if run == [] then 0 else (if run[0].Crash? || run[0].LoseFinal? then 1 else 0) + Losses(run[1..])
  }

  /** The job whose holder the step loses. */
  function Dropped(s: State, e: Step): set<JobId> {
    if (e.Crash? || e.LoseFinal?) && e.w in s.workers && s.workers[e.w].Holds() then {s.workers[e.w].job} else {}
  }

  /** A worker lets go of a job only by its final write or by being lost. */
  lemma HeldStays(c: Config, s: State, e: Step, k: JobId)
    requires Enabled(c, s, e) && Held(s, k)
    ensures Held(Apply(c, s, e), k) || k in Dropped(s, e) || (e.Finalize? && s.workers[e.w].job == k)
  {
    var w :| w in s.workers && s.workers[w].Holds() && s.workers[w].job == k;
    var s' := Apply(c, s, e);
    if w in s'.workers && s'.workers[w].Holds() {
      assert s'.workers[w].job == k;
    }
  }

  /** A final write takes the row away or puts it after every row already due. */
  lemma FinalizedNoRival(c: Config, s: State, w: WorkerId, ahead: nat, id: JobId)
    requires Enabled(c, s, Finalize(w, ahead)) && s.workers[w].job != id
    requires id in s.rows && s.rows[id].availableAt < Unix(s.now)
    ensures id in Apply(c, s, Finalize(w, ahead)).rows
    ensures s.workers[w].job !in Rivals(Apply(c, s, Finalize(w, ahead)).rows, id)
  {
    var wk := s.workers[w];
    UnixMonotone(s.now, s.now + ahead + Backoff(wk.attempt));
  }

  lemma FreedByLossOnly(c: Config, s: State, e: Step, id: JobId)
    requires Known(s) && Enabled(c, s, e)
    requires id in s.rows && s.rows[id].availableAt < Unix(s.now)
    requires id in Apply(c, s, e).rows && Apply(c, s, e).rows[id].availableAt == s.rows[id].availableAt
    ensures FreeRivals(Apply(c, s, e), id) <= FreeRivals(s, id) + Dropped(s, e)
  {
    var s' := Apply(c, s, e);
    StepNeverOvertakes(c, s, e, id);
    forall k | k in FreeRivals(s', id) ensures k in FreeRivals(s, id) + Dropped(s, e) {
      if Held(s, k) {
        HeldStays(c, s, e, k);
        if e.Finalize? { FinalizedNoRival(c, s, e.w, e.ahead, id); }
      }
    }
  }

  /** The job claimed was a free rival and is held from then on. */
  lemma OvertakerTaken(c: Config, s: State, e: Step, id: JobId)
    requires c.delay + c.skew <= SLACK && Inv(c, s) && Enabled(c, s, e)
    requires id in s.rows && Overtakes(c, s, e, id)
    ensures e.id in FreeRivals(s, id) && id in Apply(c, s, e).rows && e.id !in FreeRivals(Apply(c, s, e), id)
  {
    forall v | v in s.workers && s.workers[v].Holds() ensures s.workers[v].job != e.id {
      HeldRowNotEligible(c, s, v, e.w);
    }
    var s' := Apply(c, s, e);
    assert s'.workers[e.w].Holds() && s'.workers[e.w].job == e.id;
    assert Held(s', e.id);
  }

  lemma StepSpendsRivals(c: Config, s: State, e: Step, id: JobId)
    requires c.delay + c.skew <= SLACK && Inv(c, s) && Enabled(c, s, e)
    requires id in s.rows && s.rows[id].availableAt < Unix(s.now)
    requires id in Apply(c, s, e).rows && Apply(c, s, e).rows[id].availableAt == s.rows[id].availableAt
    ensures |FreeRivals(Apply(c, s, e), id)| + (if Overtakes(c, s, e, id) then 1 else 0)
              <= |FreeRivals(s, id)| + Losses([e])
  {
    var before, after := FreeRivals(s, id), FreeRivals(Apply(c, s, e), id);
    FreedByLossOnly(c, s, e, id);
    if Overtakes(c, s, e, id) {
      OvertakerTaken(c, s, e, id);
      assert after <= before - {e.id};
      SubsetSmaller(after, before - {e.id});
    } else {
      SubsetSmaller(after, before + Dropped(s, e));
      assert |before + Dropped(s, e)| <= |before| + |Dropped(s, e)|;
    }
  }

  /**
   A bound on being passed over: while a row waits, the jobs claimed by workers that could
   have claimed it number at most its rivals that no worker held at the start, plus the
   crashes and lost final writes meanwhile. Without those each rival passes it at most once.
   */
  lemma {:induction false} OvertakingsBounded(c: Config, s: State, run: seq<Step>, id: JobId)
    requires c.delay + c.skew <= SLACK && Inv(c, s) && Valid(c, s, run)
    requires id in s.rows && s.rows[id].availableAt < Unix(s.now)
    requires Waits(c, s, run, id, s.rows[id].availableAt)
    ensures Overtakings(c, s, run, id, s.rows[id].availableAt) <= |FreeRivals(s, id)| + Losses(run)
    decreases |run|
  {
    if run != [] {
      var s' := Apply(c, s, run[0]);
      StepKeepsInv(c, s, run[0]);
      StepNeverOvertakes(c, s, run[0], id);
      UnixMonotone(s.now, s'.now);
      StepSpendsRivals(c, s, run[0], id);
      OvertakingsBounded(c, s', run[1..], id);
      assert [run[0]][1..] == [];
    }
  }
}
