/**
 The queue_jobs table and the statements the database-backed queue runs on it
 (internal/platform/queue/database.go), each statement or transaction atomic.
 */
module QueueTable {
  import opened Common
  import opened Clock

  const LEASE: int := 360 * SECOND
  const BACKOFF_BASE: int := 5 * SECOND
  const BACKOFF_MAX: int := 300 * SECOND
  const JOB_TIMEOUT: int := 300 * SECOND
  const FINAL_TIMEOUT: int := 5 * SECOND

  type JobId = nat

  datatype Row = Row(
    task: string, payload: string, maxAttempts: nat, attempts: nat,
    reservedAt: Option<int>, availableAt: int, createdAt: int)

  type Table = map<JobId, Row>

  /** The WHERE clause of claim's locking read; reading is the caller's clock. */
  predicate Eligible(r: Row, reading: int) {
    && r.availableAt <= Unix(reading)
    && (r.reservedAt.None? || r.reservedAt.value < Unix(reading - LEASE))
  }

  /** ORDER BY available_at, created_at. */
  predicate OrderedBefore(a: Row, b: Row) {
    a.availableAt < b.availableAt || (a.availableAt == b.availableAt && a.createdAt < b.createdAt)
  }

  /** id is a row that LIMIT 1 may return: eligible, and no eligible row sorts before it. */
  predicate IsNext(t: Table, reading: int, id: JobId) {
    && id in t
    && Eligible(t[id], reading)
    && forall k | k in t && Eligible(t[k], reading) :: !OrderedBefore(t[k], t[id])
  }

  function MaxAttempts(maxRetry: int): nat {
    if maxRetry > 0 then maxRetry + 1 else 1
  }

  function Enqueued(t: Table, id: JobId, task: string, payload: string, maxRetry: int, reading: int,
      createdAt: int): Table {
    t[id := Row(task, payload, MaxAttempts(maxRetry), 0, None, Unix(reading), createdAt)]
  }

  function Claimed(t: Table, id: JobId, reading: int): Table
    requires id in t
  {
    t[id := t[id].(reservedAt := Some(Unix(reading)), attempts := t[id].attempts + 1)]
  }

  function Released(t: Table, id: JobId, attempt: nat, reading: int): Table {
    if id in t
    then t[id := t[id].(reservedAt := None, availableAt := Unix(reading + Backoff(attempt)))]
    else t
  }

  function Finished(t: Table, id: JobId): Table { t - {id} }

  function Pow2(n: nat): (p: nat)
    ensures p >= 1
  {
    if n == 0 then 1 else 2 * Pow2(n - 1)
  }

  /** The retry delay in closed form: 5 s doubling per failure, capped at 5 min. */
  function Backoff(attempts: nat): int {
    if attempts == 0 then BACKOFF_BASE
    else if BACKOFF_BASE * Pow2(attempts - 1) < BACKOFF_MAX then BACKOFF_BASE * Pow2(attempts - 1)
    else BACKOFF_MAX
  }

  /** The first delay is five seconds, and each one after it twice the one before, up to five minutes. */
  lemma BackoffDoubles(attempts: nat)
    requires attempts >= 1
    ensures Backoff(1) == 5 * SECOND
    ensures var twice := 2 * Backoff(attempts);
            Backoff(attempts + 1) == if twice < 300 * SECOND then twice else 300 * SECOND
  {
    assert Pow2(attempts) == 2 * Pow2(attempts - 1);
  }

  lemma {:induction false} Pow2Monotone(a: nat, b: nat)
    requires a <= b
    ensures Pow2(a) <= Pow2(b)
  {
    if a < b { Pow2Monotone(a, b - 1); }
  }

  /** Whenever some row is eligible, claim's SELECT has a row to return. */
  lemma {:induction false} NextExists(t: Table, reading: int, k: JobId) returns (id: JobId)
    requires k in t && Eligible(t[k], reading)
    ensures IsNext(t, reading, id)
  {
    var eligible := set j | j in t && Eligible(t[j], reading);
    id := LeastOf(t, eligible, k);
  }

  lemma {:induction false} LeastOf(t: Table, ids: set<JobId>, k: JobId) returns (id: JobId)
    requires ids <= t.Keys && k in ids
    ensures id in ids && forall j | j in ids :: !OrderedBefore(t[j], t[id])
    decreases ids
  {
    if j :| j in ids && OrderedBefore(t[j], t[k]) {
      id := LeastOf(t, ids - {k}, j);
      assert !OrderedBefore(t[j], t[id]);
    } else {
      id := k;
    }
  }
}

/** The imperative queue: enqueuer and worker over one shared table. */
module QueueServer {
  import opened Common
  import opened Clock
  import opened QueueTable

  /** What a handler run ends in; a panic or an expired context is Failed. */
  datatype Outcome = Succeeded | Permanent | Failed

  datatype Job = Job(id: JobId, task: string, payload: string, attempts: nat, maxAttempts: nat)

  /**
   handed counts how often each job has been given to its handler. A job in the table has
   attempts left, all of them on record, and no job is ever handed out beyond its budget.
   */
  ghost predicate Budgeted(rows: Table, budget: map<JobId, nat>, handed: multiset<JobId>) {
    && (forall id | id in rows ::
          id in budget && rows[id].maxAttempts == budget[id] && rows[id].attempts == handed[id] < budget[id])
    && (forall id | id in handed :: id in budget && handed[id] <= budget[id])
  }

  /** The rows and calls after one job was worked on. */
  ghost predicate Processed(before: Table, after: Table, was: multiset<JobId>, handed: multiset<JobId>, id: JobId,
                            handlers: set<string>, outcome: Outcome, finalReading: int)
    requires id in before
  {
    var r := before[id];
    && (forall k | k != id :: k in after <==> k in before)
    && (forall k | k != id && k in after :: after[k] == before[k])
    && handed == (if r.task in handlers then was + multiset{id} else was)
    && (id in after <==> r.task in handlers && outcome == Failed && r.attempts + 1 < r.maxAttempts)
    && (id in after ==>
          after[id] == r.(attempts := r.attempts + 1, reservedAt := None,
                          availableAt := Unix(finalReading + Backoff(r.attempts + 1))))
  }

  /** The same as one of the two final statements on the claimed table. */
  lemma ProcessedTable(before: Table, reading: int, after: Table, was: multiset<JobId>, handed: multiset<JobId>,
                       id: JobId, handlers: set<string>, outcome: Outcome, finalReading: int)
    requires id in before && Processed(before, after, was, handed, id, handlers, outcome, finalReading)
    ensures var claimed := Claimed(before, id, reading);
            after == if id in after then Released(claimed, id, before[id].attempts + 1, finalReading)
                     else Finished(claimed, id)
  {
  }

  lemma ProcessedKeepsBudget(before: Table, after: Table, was: multiset<JobId>, handed: multiset<JobId>, id: JobId,
                             handlers: set<string>, outcome: Outcome, finalReading: int, budget: map<JobId, nat>)
    requires id in before && Processed(before, after, was, handed, id, handlers, outcome, finalReading)
    requires Budgeted(before, budget, was)
    ensures Budgeted(after, budget, handed)
  {
  }

  /** In whole seconds: the row is due, and free or reserved more than lease seconds ago. */
  predicate Due(r: Row, second: int, lease: int) {
    r.availableAt <= second && (r.reservedAt.None? || r.reservedAt.value + lease < second)
  }

  lemma LeaseInSeconds(reading: int)
    ensures forall r :: Eligible(r, reading) <==> Due(r, Unix(reading), 360)
  {
  }

  class DatabaseQueue {
    var rows: Table
    var handlers: set<string>
    ghost var budget: map<JobId, nat>
    ghost var handed: multiset<JobId>

    ghost predicate WithinBudget()
      reads this
    {
      Budgeted(rows, budget, handed)
    }

    constructor (handlers: set<string>)
      ensures rows == map[] && this.handlers == handlers
      ensures budget == map[] && handed == multiset{} && WithinBudget()
    {
      rows := map[];
      this.handlers := handlers;
      budget, handed := map[], multiset{};
    }

    /** Inserts a job; id is the fresh identifier the application generates. */
    method Enqueue(id: JobId, task: string, payload: string, maxRetry: int, reading: int, createdAt: int)
      requires id !in rows && id !in budget
      modifies this`rows, this`budget
      ensures rows == Enqueued(old(rows), id, task, payload, maxRetry, reading, createdAt)
      ensures forall k | k in old(rows) :: k in rows && rows[k] == old(rows)[k]
      ensures rows.Keys == old(rows).Keys + {id} && budget == old(budget)[id := rows[id].maxAttempts]
      ensures var r := rows[id];
              && r.task == task && r.payload == payload && r.attempts == 0 && r.reservedAt.None?
              && r.availableAt == Unix(reading) && r.createdAt == createdAt
              && (maxRetry > 0 ==> r.maxAttempts == maxRetry + 1) && (maxRetry <= 0 ==> r.maxAttempts == 1)
      ensures old(WithinBudget()) ==> WithinBudget()
    {
      var maxAttempts: nat := 1;
      if maxRetry > 0 {
        maxAttempts := maxRetry + 1;
      }
      rows := rows[id := Row(task, payload, maxAttempts, 0, None, Unix(reading), createdAt)];
      budget := budget[id := maxAttempts];
    }

    /** One claim transaction: locking read of the next row, then the reserving update. */
    method Claim(reading: int) returns (claimed: Option<Job>)
      modifies this`rows
      ensures claimed.None? ==> rows == old(rows)
      ensures claimed.None? <==> forall k | k in old(rows) :: !Eligible(old(rows)[k], reading)
      ensures claimed.Some? <==> exists k :: k in old(rows) && Due(old(rows)[k], Unix(reading), 360)
      ensures claimed.Some? ==>
                var j := claimed.value;
                && IsNext(old(rows), reading, j.id)
                && (forall k | k in old(rows) && Due(old(rows)[k], Unix(reading), 360) ::
                      || old(rows)[j.id].availableAt < old(rows)[k].availableAt
                      || (old(rows)[j.id].availableAt == old(rows)[k].availableAt
                          && old(rows)[j.id].createdAt <= old(rows)[k].createdAt))
                && rows == Claimed(old(rows), j.id, reading)
                && var r := old(rows)[j.id]; j == Job(j.id, r.task, r.payload, r.attempts, r.maxAttempts)
    {
      LeaseInSeconds(reading);
      if forall k | k in rows :: !Eligible(rows[k], reading) {
        return None;
      }
      ghost var k :| k in rows && Eligible(rows[k], reading);
      ghost var least := NextExists(rows, reading, k);
      var id :| id in rows && IsNext(rows, reading, id);
      var r := rows[id];
      rows := rows[id := r.(reservedAt := Some(Unix(reading)), attempts := r.attempts + 1)];
      return Some(Job(id, r.task, r.payload, r.attempts, r.maxAttempts));
    }

    method Release(id: JobId, attempt: nat, reading: int)
      modifies this`rows
      ensures rows == Released(old(rows), id, attempt, reading)
    {
      var delay := BackoffDelay(attempt);
      if id in rows {
        rows := rows[id := rows[id].(reservedAt := None, availableAt := Unix(reading + delay))];
      }
    }

    method Finish(id: JobId)
      modifies this`rows
      ensures rows == Finished(old(rows), id)
    {
      rows := rows - {id};
    }

    /**
     Claims one job, a least eligible one, gives it to its handler if there is one, and
     disposes of its row: deleted without a handler, after success, after a permanent error
     and after its last attempt, and otherwise back with one more attempt, unreserved and
     delayed. No other row changes.
     */
    method ProcessOne(reading: int, outcome: Outcome, finalReading: int) returns (worked: bool, ghost id: JobId)
      modifies this`rows, this`handed
      ensures worked <==> exists k :: k in old(rows) && Eligible(old(rows)[k], reading)
      ensures !worked ==> rows == old(rows) && handed == old(handed)
      ensures worked ==>
                && IsNext(old(rows), reading, id)
                && Processed(old(rows), rows, old(handed), handed, id, handlers, outcome, finalReading)
      ensures worked ==>
                var r := old(rows)[id];
                id !in rows <==> r.task !in handlers || outcome != Failed || r.attempts + 1 >= r.maxAttempts
      ensures old(WithinBudget()) ==> WithinBudget()
    {
      var claimed := Claim(reading);
      if claimed.None? {
        return false, 0;
      }
      var job := claimed.value;
      id := job.id;
      if job.task in handlers {
        handed := handed + multiset{job.id};
      }
      Dispose(job, outcome, finalReading);
      assert Processed(old(rows), rows, old(handed), handed, job.id, handlers, outcome, finalReading);
      if old(WithinBudget()) {
        ProcessedKeepsBudget(old(rows), rows, old(handed), handed, job.id, handlers, outcome, finalReading, budget);
      }
      worked := true;
    }

    /** What becomes of a claimed row once its handler, if there is one, has returned. */
    method Dispose(job: Job, outcome: Outcome, finalReading: int)
      modifies this`rows
      ensures rows ==
              if job.task !in handlers || outcome != Failed || job.attempts + 1 >= job.maxAttempts
              then old(rows) - {job.id}
              else Released(old(rows), job.id, job.attempts + 1, finalReading)
    {
      if job.task !in handlers {
        Finish(job.id);
        return;
      }
      if outcome == Succeeded || outcome == Permanent {
        Finish(job.id);
        return;
      }
      var attempt := job.attempts + 1;
      if attempt >= job.maxAttempts {
        Finish(job.id);
        return;
      }
      Release(job.id, attempt, finalReading);
    }
  }

  /**
   The guarded doubling loop computes the closed form for every attempt count, and
   no intermediate value leaves the range of a 64-bit duration.
   */
  method BackoffDelay(attempts: nat) returns (delay: int)
    ensures delay == Backoff(attempts)
    ensures BACKOFF_BASE <= delay <= BACKOFF_MAX
  {
    delay := BACKOFF_BASE;
    var i := 1;
    while i < attempts
      invariant i == 1 || 1 < i <= attempts
      invariant BACKOFF_BASE <= delay == BACKOFF_BASE * Pow2(i - 1) < BACKOFF_MAX
    {
      if delay >= BACKOFF_MAX / 2 {
        assert Pow2(i) == 2 * Pow2(i - 1);
        Pow2Monotone(i, attempts - 1);
        assert BACKOFF_BASE * Pow2(attempts - 1) >= BACKOFF_MAX;
        delay := BACKOFF_MAX;
        break;
      }
      delay := delay * 2;
      i := i + 1;
    }
  }
}
