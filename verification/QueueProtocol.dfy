/**
 Any number of workers over one queue_jobs table, as a transition system: workers
 claim, run, finalise, lose their final write, or crash; time passes between steps.
 A run is a sequence of steps; the theorems hold after every run from Init.
 */
module QueueProtocol {
  import opened Common
  import opened Clock
  import opened QueueTable
  import opened QueueServer

  type WorkerId = nat

  /**
   The timing the environment grants. A claim commits at most delay after the worker
   read its clock, and every clock reading is ahead of true time by at most skew.
   */
  datatype Config = Config(delay: nat, skew: nat)

  /** What is left of the lease once handler and final write have had their full time. */
  const SLACK: int := LEASE - JOB_TIMEOUT - FINAL_TIMEOUT

  datatype Reason = Success | PermanentError | NoHandler | Exhausted

  /** How a worker means to dispose of its job. */
  datatype Disposal = Drop(reason: Reason) | Retry

  /**
   A worker between its own steps. Claiming: it has read its clock and its claim
   transaction is under way. Running: the handler must return by deadline.
   Finalizing: the final write must have ended by deadline.
   */
  datatype Worker =
    | Claiming(readAt: int, reading: int)
    | Running(job: JobId, attempt: nat, maxAttempts: nat, reading: int, deadline: int)
    | Finalizing(job: JobId, attempt: nat, disposal: Disposal, reading: int, deadline: int)
  {
    predicate Holds() { Running? || Finalizing? }
  }

  /**
   now, rows and workers are the system; the other fields are history: how each job
   was removed, its attempt budget, its claims, and how often a worker holding it
   crashed or lost its final write.
   */
  datatype State = State(
    now: int, rows: Table, workers: map<WorkerId, Worker>,
    removed: map<JobId, Reason>, budget: map<JobId, nat>,
    claims: map<JobId, nat>, lost: map<JobId, nat>)

  datatype Step =
    | Enqueue(id: JobId, task: string, payload: string, maxRetry: int, ahead: nat, createdAt: int)
    | ReadClock(w: WorkerId, ahead: nat)
    | Claim(w: WorkerId, id: JobId)
    | NoJob(w: WorkerId)
    | Return(w: WorkerId, outcome: Outcome)
    | Missing(w: WorkerId)
    | Finalize(w: WorkerId, ahead: nat)
    | LoseFinal(w: WorkerId)
    | Crash(w: WorkerId)
    | Tick(dt: nat)

  const Init := State(0, map[], map[], map[], map[], map[], map[])

  /** The latest instant at which the worker may still be in its present phase. */
  function LatestIn(c: Config, wk: Worker): int {
    if wk.Claiming? then wk.readAt + c.delay else wk.deadline
  }

  predicate Enabled(c: Config, s: State, e: Step) {
    match e
    case Enqueue(id, _, _, _, ahead, _) => id !in s.budget && ahead <= c.skew
    case ReadClock(w, ahead) => w !in s.workers && ahead <= c.skew
    case Claim(w, id) => w in s.workers && s.workers[w].Claiming? && IsNext(s.rows, s.workers[w].reading, id)
    case NoJob(w) => w in s.workers && s.workers[w].Claiming?
    case Return(w, _) => w in s.workers && s.workers[w].Running?
    case Missing(w) => w in s.workers && s.workers[w].Running?
    case Finalize(w, ahead) => w in s.workers && s.workers[w].Finalizing? && ahead <= c.skew
    case LoseFinal(w) => w in s.workers && s.workers[w].Finalizing?
    case Crash(w) => w in s.workers
    case Tick(dt) => forall w | w in s.workers :: s.now + dt <= LatestIn(c, s.workers[w])
  }

  /** processOne's decision once the handler has returned. */
  function Decide(outcome: Outcome, attempt: nat, maxAttempts: nat): Disposal {
    match outcome
    case Succeeded => Drop(Success)
    case Permanent => Drop(PermanentError)
    case Failed => if attempt >= maxAttempts then Drop(Exhausted) else Retry
  }

  function Leave(s: State, w: WorkerId): State { s.(workers := s.workers - {w}) }

  function Lose(s: State, w: WorkerId): State
    requires w in s.workers
  {
    var wk := s.workers[w];
    if wk.Holds() && wk.job in s.lost
    then Leave(s, w).(lost := s.lost[wk.job := s.lost[wk.job] + 1])
    else Leave(s, w)
  }

  function Apply(c: Config, s: State, e: Step): State
    requires Enabled(c, s, e)
  {
    match e
    case Enqueue(id, task, payload, maxRetry, ahead, createdAt) =>
      s.(rows := Enqueued(s.rows, id, task, payload, maxRetry, s.now + ahead, createdAt),
         budget := s.budget[id := MaxAttempts(maxRetry)],
         claims := s.claims[id := 0], lost := s.lost[id := 0])
    case ReadClock(w, ahead) => s.(workers := s.workers[w := Claiming(s.now, s.now + ahead)])
    case Claim(w, id) =>
      var r := s.rows[id];
      var reading := s.workers[w].reading;
      s.(rows := Claimed(s.rows, id, reading),
         workers := s.workers[w := Running(id, r.attempts + 1, r.maxAttempts, reading, s.now + JOB_TIMEOUT)],
         claims := s.claims[id := if id in s.claims then s.claims[id] + 1 else 1])
    case NoJob(w) => Leave(s, w)
    case Return(w, outcome) =>
      var wk := s.workers[w];
      s.(workers := s.workers[w := Finalizing(wk.job, wk.attempt, Decide(outcome, wk.attempt, wk.maxAttempts),
                                              wk.reading, s.now + FINAL_TIMEOUT)])
    case Missing(w) =>
      var wk := s.workers[w];
      s.(workers := s.workers[w := Finalizing(wk.job, wk.attempt, Drop(NoHandler), wk.reading, s.now + FINAL_TIMEOUT)])
    case Finalize(w, ahead) =>
      var wk := s.workers[w];
      (match wk.disposal
       case Drop(reason) => Leave(s, w).(rows := Finished(s.rows, wk.job), removed := s.removed[wk.job := reason])
       case Retry => Leave(s, w).(rows := Released(s.rows, wk.job, wk.attempt, s.now + ahead)))
    case LoseFinal(w) => Lose(s, w)
    case Crash(w) => Lose(s, w)
    case Tick(dt) => s.(now := s.now + dt)
  }

  predicate Valid(c: Config, s: State, run: seq<Step>)
    decreases |run|
  {
    run == [] || (Enabled(c, s, run[0]) && Valid(c, Apply(c, s, run[0]), run[1..]))
  }

  function Exec(c: Config, s: State, run: seq<Step>): State
    requires Valid(c, s, run)
    decreases |run|
  {
    if run == [] then s else Exec(c, Apply(c, s, run[0]), run[1..])
  }

  /** No two live workers hold the same job. */
  predicate Exclusive(s: State) {
    forall v, w | v in s.workers && w in s.workers && v != w && s.workers[v].Holds() && s.workers[w].Holds() ::
      s.workers[v].job != s.workers[w].job
  }

  /** A holder's row is still reserved under that holder's own claim time and attempt. */
  predicate OwnsRow(s: State, wk: Worker) {
    wk.Holds() ==>
      && wk.job in s.rows
      && s.rows[wk.job].reservedAt == Some(Unix(wk.reading))
      && s.rows[wk.job].attempts == wk.attempt
      && (wk.Running? ==> s.rows[wk.job].maxAttempts == wk.maxAttempts)
      && (wk.Finalizing? && wk.disposal.Drop? && wk.disposal.reason == Exhausted
          ==> s.rows[wk.job].maxAttempts <= wk.attempt)
      && (wk.Finalizing? && wk.disposal.Retry? ==> wk.attempt < s.rows[wk.job].maxAttempts)
  }

  /** A worker is within its time, and its whole hold ends within the slack of its reading. */
  predicate OnTime(c: Config, s: State, wk: Worker) {
    && s.now <= LatestIn(c, wk)
    && (wk.Claiming? ==> wk.readAt <= wk.reading <= s.now + c.skew)
    && (wk.Running? ==> wk.deadline <= wk.reading + c.delay + JOB_TIMEOUT)
    && (wk.Finalizing? ==> wk.deadline <= wk.reading + c.delay + JOB_TIMEOUT + FINAL_TIMEOUT)
  }

  predicate WorkersOk(c: Config, s: State) {
    forall w | w in s.workers :: OnTime(c, s, s.workers[w]) && OwnsRow(s, s.workers[w])
  }

  predicate Held(s: State, id: JobId) {
    exists w :: w in s.workers && s.workers[w].Holds() && s.workers[w].job == id
  }

  /** Every job ever enqueued is a row or has been removed, never both. */
  predicate Partitioned(s: State) {
    && s.rows.Keys !! s.removed.Keys
    && s.rows.Keys + s.removed.Keys == s.budget.Keys
    && s.claims.Keys == s.budget.Keys
    && s.lost.Keys == s.budget.Keys
  }

  predicate JobOk(s: State, id: JobId)
    requires Partitioned(s) && id in s.budget
  {
    && s.claims[id] <= s.budget[id] + s.lost[id]
    && (id in s.rows ==>
          && s.rows[id].attempts == s.claims[id]
          && s.rows[id].maxAttempts == s.budget[id]
          && (!Held(s, id) ==> s.claims[id] < s.budget[id] + s.lost[id]))
    && (id in s.removed && s.removed[id] == Exhausted ==> s.budget[id] <= s.claims[id])
  }

  predicate Accounted(s: State) {
    Partitioned(s) && forall id | id in s.budget :: JobOk(s, id)
  }

  predicate Inv(c: Config, s: State) {
    Exclusive(s) && WorkersOk(c, s) && Accounted(s)
  }

  /**
   The heart of the lease: while a worker is live its row cannot be eligible to
   anyone, although both clock readings were floored to whole seconds.
   */
  lemma HeldRowNotEligible(c: Config, s: State, w: WorkerId, v: WorkerId)
    requires c.delay + c.skew <= SLACK
    requires Inv(c, s)
    requires w in s.workers && s.workers[w].Holds()
    requires v in s.workers && s.workers[v].Claiming?
    ensures !Eligible(s.rows[s.workers[w].job], s.workers[v].reading)
  {
    var holder, claimer := s.workers[w], s.workers[v];
    assert OnTime(c, s, holder) && OwnsRow(s, holder) && OnTime(c, s, claimer);
    if Eligible(s.rows[holder.job], claimer.reading) {
      UnixReflectsOrder(holder.reading, claimer.reading - LEASE);
      assert false;
    }
  }

  lemma ClaimKeepsWorkers(c: Config, s: State, w: WorkerId, id: JobId)
    requires Inv(c, s) && Enabled(c, s, Claim(w, id))
    requires forall v | v in s.workers && s.workers[v].Holds() :: s.workers[v].job != id
    ensures Exclusive(Apply(c, s, Claim(w, id))) && WorkersOk(c, Apply(c, s, Claim(w, id)))
  {
    var s' := Apply(c, s, Claim(w, id));
    assert OnTime(c, s, s.workers[w]);
    forall v | v in s'.workers ensures OnTime(c, s', s'.workers[v]) && OwnsRow(s', s'.workers[v]) {
      assert v in s.workers && OnTime(c, s, s.workers[v]) && OwnsRow(s, s.workers[v]);
    }
  }

  lemma ClaimKeepsPartition(c: Config, s: State, w: WorkerId, id: JobId)
    requires Partitioned(s) && Enabled(c, s, Claim(w, id))
    ensures Partitioned(Apply(c, s, Claim(w, id))) && id in s.budget
  {
    assert id in s.rows.Keys;
  }

  lemma ClaimedJobOk(c: Config, s: State, w: WorkerId, id: JobId)
    requires Accounted(s) && Enabled(c, s, Claim(w, id)) && !Held(s, id)
    ensures var s' := Apply(c, s, Claim(w, id)); Partitioned(s') && id in s'.budget && JobOk(s', id)
  {
    ClaimKeepsPartition(c, s, w, id);
    var s' := Apply(c, s, Claim(w, id));
    assert JobOk(s, id);
    assert s'.workers[w].Holds() && s'.workers[w].job == id;
    assert s'.rows[id].attempts == s.rows[id].attempts + 1 && s'.claims[id] == s.claims[id] + 1;
  }

  lemma ClaimKeepsJobs(c: Config, s: State, w: WorkerId, id: JobId)
    requires Inv(c, s) && Enabled(c, s, Claim(w, id)) && !Held(s, id)
    ensures Accounted(Apply(c, s, Claim(w, id)))
  {
    var s' := Apply(c, s, Claim(w, id));
    ClaimedJobOk(c, s, w, id);
    forall j | j in s'.budget && j != id ensures JobOk(s', j) {
      assert JobOk(s, j);
      HeldElsewhere(s, s', w, j);
    }
  }

  lemma ClaimKeepsInv(c: Config, s: State, w: WorkerId, id: JobId)
    requires c.delay + c.skew <= SLACK
    requires Inv(c, s) && Enabled(c, s, Claim(w, id))
    ensures Inv(c, Apply(c, s, Claim(w, id)))
  {
    forall v | v in s.workers && s.workers[v].Holds()
      ensures s.workers[v].job != id
    {
      HeldRowNotEligible(c, s, v, w);
    }
    assert !Held(s, id);
    ClaimKeepsWorkers(c, s, w, id);
    ClaimKeepsJobs(c, s, w, id);
  }

  /** Held carries over when only worker w changes and it holds j neither before nor after. */
  lemma HeldElsewhere(s: State, s': State, w: WorkerId, j: JobId)
    requires forall v | v in s.workers && v != w :: v in s'.workers && s'.workers[v] == s.workers[v]
    requires (w in s.workers && s.workers[w].Holds() && s.workers[w].job == j)
               ==> (w in s'.workers && s'.workers[w].Holds() && s'.workers[w].job == j)
    ensures Held(s, j) ==> Held(s', j)
  {
  }

  /** Steps that touch no row and no history, and leave w holding what it held. */
  lemma QuietStepKeepsInv(c: Config, s: State, s': State, w: WorkerId)
    requires Inv(c, s)
    requires s' == s.(now := s'.now, workers := s'.workers)
    requires forall v | v != w :: v in s'.workers <==> v in s.workers
    requires forall v | v in s.workers && v != w :: s'.workers[v] == s.workers[v]
    requires forall v | v in s'.workers :: OnTime(c, s', s'.workers[v])
    requires w in s'.workers ==> OwnsRow(s', s'.workers[w])
    requires w in s'.workers && s'.workers[w].Holds() ==>
               w in s.workers && s.workers[w].Holds() && s.workers[w].job == s'.workers[w].job
    requires w in s.workers && s.workers[w].Holds() ==> w in s'.workers && s'.workers[w].Holds()
    ensures Inv(c, s')
  {
    forall v | v in s'.workers ensures OwnsRow(s', s'.workers[v]) {
      assert v != w ==> OwnsRow(s, s.workers[v]);
    }
    forall j | j in s'.budget ensures JobOk(s', j) {
      assert JobOk(s, j);
      HeldElsewhere(s, s', w, j);
    }
  }

  /** Once w's job is settled, every other holder and every other job is as before. */
  lemma SettleKeepsInv(c: Config, s: State, s': State, w: WorkerId)
    requires Inv(c, s) && w in s.workers && s.workers[w].Holds()
    requires s'.now == s.now && s'.workers == s.workers - {w} && s'.budget == s.budget && s'.claims == s.claims
    requires Partitioned(s') && JobOk(s', s.workers[w].job)
    requires forall j | j in s.budget && j != s.workers[w].job ::
               && s'.lost[j] == s.lost[j]
               && (j in s'.rows <==> j in s.rows)
               && (j in s.rows ==> s'.rows[j] == s.rows[j])
               && (j in s'.removed <==> j in s.removed)
               && (j in s.removed ==> s'.removed[j] == s.removed[j])
    ensures Inv(c, s')
  {
    var id := s.workers[w].job;
    forall v | v in s'.workers ensures OnTime(c, s', s'.workers[v]) && OwnsRow(s', s'.workers[v]) {
      assert OnTime(c, s, s.workers[v]) && OwnsRow(s, s.workers[v]);
      assert s.workers[v].Holds() ==> s.workers[v].job != id && s.workers[v].job in s.budget;
    }
    forall j | j in s'.budget ensures JobOk(s', j) {
      assert JobOk(s, j);
      if j != id { HeldElsewhere(s, s', w, j); }
    }
  }

  lemma DropKeepsInv(c: Config, s: State, w: WorkerId, e: Step)
    requires Inv(c, s) && Enabled(c, s, e) && e.Finalize? && w == e.w && s.workers[w].disposal.Drop?
    ensures Inv(c, Apply(c, s, e))
  {
    var id := s.workers[w].job;
    assert OwnsRow(s, s.workers[w]) && JobOk(s, id);
    SettleKeepsInv(c, s, Apply(c, s, e), w);
  }

  lemma RetryKeepsInv(c: Config, s: State, w: WorkerId, e: Step)
    requires Inv(c, s) && Enabled(c, s, e) && e.Finalize? && w == e.w && s.workers[w].disposal.Retry?
    ensures Inv(c, Apply(c, s, e))
  {
    var s', id := Apply(c, s, e), s.workers[w].job;
    assert OwnsRow(s, s.workers[w]) && JobOk(s, id);
    assert s'.rows.Keys == s.rows.Keys && Partitioned(s');
    assert s'.rows[id].attempts == s.rows[id].attempts && s'.rows[id].maxAttempts == s.rows[id].maxAttempts;
    assert JobOk(s', id);
    SettleKeepsInv(c, s, s', w);
  }

  lemma LoseKeepsInv(c: Config, s: State, w: WorkerId)
    requires Inv(c, s) && w in s.workers
    ensures Inv(c, Lose(s, w))
  {
    if s.workers[w].Holds() {
      assert OwnsRow(s, s.workers[w]) && JobOk(s, s.workers[w].job);
      SettleKeepsInv(c, s, Lose(s, w), w);
    } else {
      forall v | v in s.workers ensures OnTime(c, Lose(s, w), s.workers[v]) { assert OnTime(c, s, s.workers[v]); }
      QuietStepKeepsInv(c, s, Lose(s, w), w);
    }
  }

  lemma EnqueueKeepsWorkers(c: Config, s: State, e: Step)
    requires Inv(c, s) && Enabled(c, s, e) && e.Enqueue?
    ensures Exclusive(Apply(c, s, e)) && WorkersOk(c, Apply(c, s, e))
  {
  }

  lemma EnqueueKeepsJobs(c: Config, s: State, e: Step)
    requires Accounted(s) && Enabled(c, s, e) && e.Enqueue?
    ensures Accounted(Apply(c, s, e))
  {
    var s' := Apply(c, s, e);
    assert Partitioned(s');
    forall j | j in s'.budget ensures JobOk(s', j) {
      assert j in s.budget ==> JobOk(s, j) && (Held(s', j) <==> Held(s, j));
    }
  }

  lemma TickKeepsInv(c: Config, s: State, dt: nat)
    requires Inv(c, s) && Enabled(c, s, Tick(dt))
    ensures Inv(c, Apply(c, s, Tick(dt)))
  {
    forall v | v in s.workers ensures OnTime(c, s, s.workers[v]) && OwnsRow(s, s.workers[v]) {}
    QuietStepKeepsInv(c, s, Apply(c, s, Tick(dt)), 0);
  }

  /** Steps that only move one worker on. */
  lemma WorkerStepKeepsInv(c: Config, s: State, e: Step)
    requires Inv(c, s) && Enabled(c, s, e)
    requires e.NoJob? || e.ReadClock? || e.Return? || e.Missing?
    ensures Inv(c, Apply(c, s, e))
  {
    forall v | v in s.workers ensures OnTime(c, s, s.workers[v]) && OwnsRow(s, s.workers[v]) {}
    QuietStepKeepsInv(c, s, Apply(c, s, e), e.w);
  }

  lemma StepKeepsInv(c: Config, s: State, e: Step)
    requires c.delay + c.skew <= SLACK
    requires Inv(c, s) && Enabled(c, s, e)
    ensures Inv(c, Apply(c, s, e))
  {
    match e
    case Enqueue(_, _, _, _, _, _) =>
      EnqueueKeepsWorkers(c, s, e);
      EnqueueKeepsJobs(c, s, e);
    case Claim(w, id) => ClaimKeepsInv(c, s, w, id);
    case Finalize(w, _) => if s.workers[w].disposal.Drop? { DropKeepsInv(c, s, w, e); }
        else { RetryKeepsInv(c, s, w, e); }
    case LoseFinal(w) => LoseKeepsInv(c, s, w);
    case Crash(w) => LoseKeepsInv(c, s, w);
    case Tick(dt) => TickKeepsInv(c, s, dt);
    case _ => WorkerStepKeepsInv(c, s, e);
  }

  lemma {:induction false} RunKeepsInv(c: Config, s: State, run: seq<Step>)
    requires c.delay + c.skew <= SLACK
    requires Inv(c, s) && Valid(c, s, run)
    ensures Inv(c, Exec(c, s, run))
    decreases |run|
  {
    if run != [] {
      StepKeepsInv(c, s, run[0]);
      RunKeepsInv(c, Apply(c, s, run[0]), run[1..]);
    }
  }

  // ---------------------------------------------------------------------------
  // Main results
  // ---------------------------------------------------------------------------

  lemma RunFromInit(c: Config, run: seq<Step>)
    requires c.delay + c.skew <= SLACK && Valid(c, Init, run)
    ensures Inv(c, Exec(c, Init, run))
  {
    RunKeepsInv(c, Init, run);
  }

  /**
   Mutual exclusion, with its exact condition: no schedule of any number of workers
   ever has two live holders of one job if and only if claim latency plus clock skew
   fits in the 55 s that the lease leaves after handler and final write.
   */
  lemma ExclusionIffSlack(c: Config)
    ensures (forall run | Valid(c, Init, run) :: Exclusive(Exec(c, Init, run))) <==> c.delay + c.skew <= 55 * SECOND
  {
    if c.delay + c.skew <= SLACK {
      forall run | Valid(c, Init, run) ensures Exclusive(Exec(c, Init, run)) {
        RunFromInit(c, run);
      }
    } else {
      var run := OverlapRun(c);
    }
  }

  /** Every final write touches a row still reserved under its worker's own claim. */
  lemma FinalWriteIsOwn(c: Config, run: seq<Step>, w: WorkerId, ahead: nat)
    requires c.delay + c.skew <= SLACK && Valid(c, Init, run)
    requires Enabled(c, Exec(c, Init, run), Finalize(w, ahead))
    ensures var s := Exec(c, Init, run);
            && s.workers[w].job in s.rows
            && s.rows[s.workers[w].job].reservedAt == Some(Unix(s.workers[w].reading))
            && s.rows[s.workers[w].job].attempts == s.workers[w].attempt
  {
    RunFromInit(c, run);
    var s := Exec(c, Init, run);
    assert OwnsRow(s, s.workers[w]);
  }

  /**
   Accounting over whole runs: every job enqueued is pending or removed, never both;
   it has been claimed at most once per budgeted attempt plus once per crash or lost
   final write; and it is given up for exhaustion only after its whole budget.
   */
  lemma JobsAccounted(c: Config, run: seq<Step>, id: JobId)
    requires c.delay + c.skew <= SLACK && Valid(c, Init, run)
    requires id in Exec(c, Init, run).budget
    ensures var s := Exec(c, Init, run);
            && (id in s.rows <==> id !in s.removed)
            && id in s.claims && id in s.lost
            && s.claims[id] <= s.budget[id] + s.lost[id]
            && (id in s.removed && s.removed[id] == Exhausted ==> s.budget[id] <= s.claims[id])
  {
    RunFromInit(c, run);
    assert JobOk(Exec(c, Init, run), id);
  }

  /**
   Claim has no filter on attempts and needs none: a row is claimed beyond its budget
   only to make up for a crash or lost write, so without those every claim spends one of
   the job's remaining attempts.
   */
  lemma ClaimSpendsAnAttempt(c: Config, run: seq<Step>, w: WorkerId, id: JobId)
    requires c.delay + c.skew <= SLACK && Valid(c, Init, run)
    requires Enabled(c, Exec(c, Init, run), Claim(w, id))
    ensures var s := Exec(c, Init, run);
            id in s.lost && s.rows[id].attempts < s.rows[id].maxAttempts + s.lost[id]
  {
    RunFromInit(c, run);
    var s := Exec(c, Init, run);
    forall v | v in s.workers && s.workers[v].Holds() ensures s.workers[v].job != id {
      HeldRowNotEligible(c, s, v, w);
    }
    assert !Held(s, id) && id in s.budget && JobOk(s, id);
  }

  lemma {:induction false} ExecSnoc(c: Config, s: State, run: seq<Step>, e: Step)
    requires Valid(c, s, run) && Enabled(c, Exec(c, s, run), e)
    ensures Valid(c, s, run + [e])
    ensures Exec(c, s, run + [e]) == Apply(c, Exec(c, s, run), e)
    decreases |run|
  {
    if run == [] {
      assert [e][1..] == [];
    } else {
      ExecSnoc(c, Apply(c, s, run[0]), run[1..], e);
      assert (run + [e])[1..] == run[1..] + [e];
    }
  }

  lemma Extend(c: Config, from: State, run: seq<Step>, s: State, e: Step) returns (run': seq<Step>, s': State)
    requires Valid(c, from, run) && s == Exec(c, from, run) && Enabled(c, s, e)
    ensures run' == run + [e] && s' == Apply(c, s, e)
    ensures Valid(c, from, run') && s' == Exec(c, from, run')
  {
    ExecSnoc(c, from, run, e);
    run', s' := run + [e], Apply(c, s, e);
  }

  /** The schedule that breaks exclusion once latency and skew exceed the slack. */
  lemma OverlapRun(c: Config) returns (run: seq<Step>)
    requires c.delay + c.skew > SLACK
    ensures Valid(c, Init, run)
    ensures !Exclusive(Exec(c, Init, run))
  {
    var s;
    run, s := OverlapHold(c);
    OverlapSecondClaim(c, s);
    run, s := Extend(c, Init, run, s, ReadClock(2, c.skew));
    run, s := Extend(c, Init, run, s, Claim(2, 0));
    assert s.workers[1].job == s.workers[2].job;
  }

  /** Worker 1 claims job 0 as late after reading its clock as it may. */
  lemma OverlapFirstClaim(c: Config) returns (run: seq<Step>, s: State)
    ensures Valid(c, Init, run) && s == Exec(c, Init, run)
    ensures s.now == SECOND - 1 + c.delay
    ensures s.rows == map[0 := Row("", "", 1, 1, Some(0), 0, 0)]
    ensures s.workers == map[1 := Running(0, 1, 1, SECOND - 1, s.now + JOB_TIMEOUT)]
  {
    run, s := [], Init;
    run, s := Extend(c, Init, run, s, Enqueue(0, "", "", 0, 0, 0));
    run, s := Extend(c, Init, run, s, Tick((SECOND - 1) as nat));
    run, s := Extend(c, Init, run, s, ReadClock(1, 0));
    run, s := Extend(c, Init, run, s, Tick(c.delay));
    run, s := Extend(c, Init, run, s, Claim(1, 0));
  }

  /** Worker 1 uses its handler time up. */
  lemma OverlapHandler(c: Config) returns (run: seq<Step>, s: State)
    ensures Valid(c, Init, run) && s == Exec(c, Init, run)
    ensures s.now == SECOND - 1 + c.delay + JOB_TIMEOUT
    ensures s.rows == map[0 := Row("", "", 1, 1, Some(0), 0, 0)]
    ensures s.workers == map[1 := Running(0, 1, 1, SECOND - 1, s.now)]
  {
    run, s := OverlapFirstClaim(c);
    run, s := Extend(c, Init, run, s, Tick(JOB_TIMEOUT as nat));
  }

  /** And then its final-write time. */
  lemma OverlapHold(c: Config) returns (run: seq<Step>, s: State)
    ensures Valid(c, Init, run) && s == Exec(c, Init, run)
    ensures s.now == SECOND - 1 + c.delay + JOB_TIMEOUT + FINAL_TIMEOUT
    ensures s.rows == map[0 := Row("", "", 1, 1, Some(0), 0, 0)]
    ensures s.workers == map[1 := Finalizing(0, 1, Drop(Exhausted), SECOND - 1, s.now)]
  {
    run, s := OverlapHandler(c);
    run, s := Extend(c, Init, run, s, Return(1, Failed));
    run, s := Extend(c, Init, run, s, Tick(FINAL_TIMEOUT as nat));
  }

  /** By the end of worker 1's hold, the row already looks abandoned to a fast clock. */
  lemma OverlapSecondClaim(c: Config, s: State)
    requires c.delay + c.skew > SLACK
    requires s.now == SECOND - 1 + c.delay + JOB_TIMEOUT + FINAL_TIMEOUT
    requires s.rows == map[0 := Row("", "", 1, 1, Some(0), 0, 0)]
    ensures IsNext(s.rows, s.now + c.skew, 0)
  {
  }

  /** A lone worker claims a job and its handler takes some time. */
  lemma CallClaims(c: Config, from: State, w: WorkerId, id: JobId, dt: nat) returns (run: seq<Step>, s: State)
    requires from.workers == map[] && dt <= JOB_TIMEOUT && IsNext(from.rows, from.now, id)
    ensures Valid(c, from, run) && s == Exec(c, from, run)
    ensures s.rows == Claimed(from.rows, id, from.now) && s.now == from.now + dt && s.removed == from.removed
    ensures var r := from.rows[id];
            s.workers == map[w := Running(id, r.attempts + 1, r.maxAttempts, from.now, from.now + JOB_TIMEOUT)]
  {
    run, s := [], from;
    run, s := Extend(c, from, run, s, ReadClock(w, 0));
    assert s == from.(workers := map[w := Claiming(from.now, from.now)]);
    run, s := Extend(c, from, run, s, Claim(w, id));
    var r := from.rows[id];
    assert s.workers == map[w := Running(id, r.attempts + 1, r.maxAttempts, from.now, from.now + JOB_TIMEOUT)];
    run, s := Extend(c, from, run, s, Tick(dt));
  }

  /** The handler's return, or its absence, and the final write. */
  lemma CallEnds(c: Config, s: State, w: WorkerId, end: Step)
    requires w in s.workers && s.workers == map[w := s.workers[w]] && s.workers[w].Running?
    requires (end.Return? || end.Missing?) && end.w == w
    ensures Enabled(c, s, end)
    ensures var s' := Apply(c, s, end);
            && Enabled(c, s', Finalize(w, 0))
            && var wk := s.workers[w];
               var d := if end.Return? then Decide(end.outcome, wk.attempt, wk.maxAttempts) else Drop(NoHandler);
               Apply(c, s', Finalize(w, 0)) ==
                 if d.Drop? then
                   s.(workers := map[], rows := Finished(s.rows, wk.job), removed := s.removed[wk.job := d.reason])
                 else s.(workers := map[], rows := Released(s.rows, wk.job, wk.attempt, s.now))
  {
    assert s.workers - {w} == map[];
  }

  /** How a row of a lone worker is disposed of; None when it goes back. */
  function ReasonFor(r: Row, handlers: set<string>, outcome: Outcome): Option<Reason> {
    if r.task !in handlers then Some(NoHandler)
    else if outcome == Succeeded then Some(Success)
    else if outcome == Permanent then Some(PermanentError)
    else if r.attempts + 1 >= r.maxAttempts then Some(Exhausted)
    else None
  }

  lemma CallRuns(c: Config, from: State, w: WorkerId, id: JobId, handlers: set<string>, outcome: Outcome, dt: nat)
      returns (run: seq<Step>, s: State)
    requires from.workers == map[] && dt <= JOB_TIMEOUT && IsNext(from.rows, from.now, id)
    ensures Valid(c, from, run) && s == Exec(c, from, run)
    ensures s.workers == map[] && s.now == from.now + dt
    ensures var reason := ReasonFor(from.rows[id], handlers, outcome);
            var claimed := Claimed(from.rows, id, from.now);
            && (reason.Some? ==> s.rows == Finished(claimed, id) && s.removed == from.removed[id := reason.value])
            && (reason.None? ==>
                  s.rows == Released(claimed, id, from.rows[id].attempts + 1, s.now) && s.removed == from.removed)
  {
    run, s := CallClaims(c, from, w, id, dt);
    var end := if from.rows[id].task in handlers then Return(w, outcome) else Missing(w);
    CallEnds(c, s, w, end);
    run, s := Extend(c, from, run, s, end);
    run, s := Extend(c, from, run, s, Finalize(w, 0));
  }

  /**
   A call of the serial worker is a run of this system: it claims, runs and finalises, the
   table afterwards is the one the call leaves, and a row that is gone was removed for its
   reason.
   */
  lemma CallIsARun(c: Config, from: State, w: WorkerId, id: JobId, after: Table, was: multiset<JobId>,
                   handed: multiset<JobId>, handlers: set<string>, outcome: Outcome, dt: nat)
      returns (run: seq<Step>, s: State)
    requires from.workers == map[] && dt <= JOB_TIMEOUT && IsNext(from.rows, from.now, id)
    requires Processed(from.rows, after, was, handed, id, handlers, outcome, from.now + dt)
    ensures Valid(c, from, run) && s == Exec(c, from, run)
    ensures s.rows == after && s.workers == map[] && s.now == from.now + dt
    ensures var reason := ReasonFor(from.rows[id], handlers, outcome);
            && (reason.None? <==> id in after)
            && s.removed == if reason.None? then from.removed else from.removed[id := reason.value]
  {
    ProcessedTable(from.rows, from.now, after, was, handed, id, handlers, outcome, from.now + dt);
    run, s := CallRuns(c, from, w, id, handlers, outcome, dt);
  }
}
