/**
 The cache drivers (internal/platform/cache) and the one abstract TTL map they stand
 for. A driver's stored expiry is a nanosecond instant in memory and a whole second in
 the database; None is "never" (the zero time, expiration 0).
 */
module CacheDrivers {
  import opened Common
  import opened Clock
  import opened Strconv

  datatype Driver = Memory | Database

  datatype Item = Item(value: string, expiry: Option<int>)

  type Items = map<string, Item>

  /** Memory: not after expiresAt. Database: expiration > the current second. */
  predicate Live(d: Driver, it: Item, now: int) {
    it.expiry.None? || match d
                       case Memory => now <= it.expiry.value
                       case Database => Unix(now) < it.expiry.value
  }

  predicate Has(d: Driver, m: Items, now: int, k: string) { k in m && Live(d, m[k], now) }

  /** Seconds rounded up, so that no positive ttl becomes 0. */
  function CeilSeconds(ttl: int): int { (ttl + SECOND - 1) / SECOND }

  function Stamp(d: Driver, now: int, ttl: int): int {
    match d
    case Memory => now + ttl
    case Database => Unix(now) + CeilSeconds(ttl)
  }

  datatype Op =
    | Get(k: string)
    | Set(k: string, v: string, ttl: int)
    | Delete(k: string)
    | GetDelete(k: string)
    | Increment(k: string, delta: int)
    | Expire(k: string, ttl: int)

  datatype Answer = Done | NotFound | Found(v: string) | Count(n: int) | BadNumber

  /** A counter after an increment: its number and the text stored for it. */
  datatype Total = Total(n: int, text: string)

  /** The counter stored as value plus delta; None when value is not a number. */
  function Sum(value: string, delta: int): Option<Total> {
    match Atoi(value)
    case None => None
    case Some(n) => Some(Total(Wrap64(n + delta), FormatInt(Wrap64(n + delta))))
  }

  /** Exactly text that is a number can be added to; the text stored reads back as the sum,
      which is the true one unless that leaves the 64-bit range. */
  lemma SumReadsBack(value: string, delta: int)
    ensures Sum(value, delta).Some? <==> Atoi(value).Some?
    ensures Sum(value, delta).Some? ==>
              var total := Sum(value, delta).value;
              && Atoi(total.text) == Some(total.n)
              && (total.n == Atoi(value).value + delta <==> MIN_INT64 <= Atoi(value).value + delta <= MAX_INT64)
  {
    if Atoi(value).Some? { AtoiFormat(Wrap64(Atoi(value).value + delta)); }
  }

  function Counted(d: Driver, m: Items, now: int, k: string, sum: Option<Total>): (Items, Answer) {
    if sum.None? then (m, BadNumber)
    else (m[k := Item(sum.value.text, if Has(d, m, now, k) then m[k].expiry else None)], Count(sum.value.n))
  }

  function IdealCounted(a: TtlMap, k: string, sum: Option<Total>): (TtlMap, Answer) {
    if sum.None? then (a, BadNumber)
    else (a[k := Entry(sum.value.text, if k in a then a[k].deadline else None)], Count(sum.value.n))
  }

  /** Both drivers, operation by operation: items afterwards and what the caller gets. */
  function Perform(d: Driver, m: Items, now: int, op: Op): (Items, Answer) {
    match op
    case Get(k) => (m, if Has(d, m, now, k) then Found(m[k].value) else NotFound)
    case Set(k, v, ttl) => (m[k := Item(v, if ttl > 0 then Some(Stamp(d, now, ttl)) else None)], Done)
    case Delete(k) => (m - {k}, Done)
    case GetDelete(k) =>
      if Has(d, m, now, k) then (m - {k}, Found(m[k].value))
      else (if d == Memory then m - {k} else m, NotFound)
    case Increment(k, delta) =>
      var sum := if Has(d, m, now, k) then Sum(m[k].value, delta) else Sum("0", delta);
      Counted(d, m, now, k, if sum.None? && d == Memory then Sum("0", delta) else sum)
    case Expire(k, ttl) =>
      if ttl <= 0 then (m - {k}, Done)
      else if k !in m then (m, Done)
      else (m[k := m[k].(expiry := Some(Stamp(d, now, ttl)))], Done)
  }

  // ---------------------------------------------------------------------------
  // The abstract TTL map
  // ---------------------------------------------------------------------------

  /** An entry is visible strictly before its deadline. */
  datatype Entry = Entry(value: string, deadline: Option<int>)

  type TtlMap = map<string, Entry>

  /** The first instant at which an item with this expiry is no longer visible. */
  function Deadline(d: Driver, expiry: int): int {
    match d
    case Memory => expiry + 1
    case Database => expiry * SECOND
  }

  function EntryOf(d: Driver, it: Item): Entry {
    Entry(it.value, if it.expiry.None? then None else Some(Deadline(d, it.expiry.value)))
  }

  /** What a store holds at now: its live items only. */
  function Abstract(d: Driver, m: Items, now: int): TtlMap {
    map k | k in m && Live(d, m[k], now) :: EntryOf(d, m[k])
  }

  /** The passage of time. */
  function Elapse(a: TtlMap, now: int): TtlMap {
    map k | k in a && (a[k].deadline.None? || now < a[k].deadline.value) :: a[k]
  }

  /** The contract of the cache interface; until is the deadline the operation's ttl gives. */
  function Ideal(a: TtlMap, op: Op, until: int): (TtlMap, Answer) {
    match op
    case Get(k) => (a, if k in a then Found(a[k].value) else NotFound)
    case Set(k, v, ttl) => (a[k := Entry(v, if ttl > 0 then Some(until) else None)], Done)
    case Delete(k) => (a - {k}, Done)
    case GetDelete(k) => if k in a then (a - {k}, Found(a[k].value)) else (a, NotFound)
    case Increment(k, delta) =>
      IdealCounted(a, k, if k in a then Sum(a[k].value, delta) else Sum("0", delta))
    case Expire(k, ttl) =>
      if ttl <= 0 then (a - {k}, Done)
      else if k !in a then (a, Done)
      else (a[k := a[k].(deadline := Some(until))], Done)
  }

  function Until(d: Driver, now: int, op: Op): int {
    if op.Set? || op.Expire? then Deadline(d, Stamp(d, now, op.ttl)) else 0
  }

  /**
   Where a driver departs from the contract: incrementing live text that is not a
   number, which Memory restarts from zero, and re-dating a row that has expired but is
   still stored, which brings it back to life under either driver.
   */
  predicate Faithful(d: Driver, m: Items, now: int, op: Op) {
    match op
    case Increment(k, delta) => d == Memory && Has(d, m, now, k) ==> Sum(m[k].value, delta).Some?
    case Expire(k, ttl) => ttl <= 0 || k !in m || Live(d, m[k], now)
    case _ => true
  }

  predicate Simulates(d: Driver, m: Items, now: int, op: Op) {
    var (m', answer) := Perform(d, m, now, op);
    (Abstract(d, m', now), answer) == Ideal(Abstract(d, m, now), op, Until(d, now, op))
  }

  lemma StampIsLive(d: Driver, now: int, ttl: int, v: string)
    requires ttl > 0
    ensures Live(d, Item(v, Some(Stamp(d, now, ttl))), now)
  {
  }

  lemma AbstractPut(d: Driver, m: Items, now: int, k: string, it: Item)
    requires Live(d, it, now)
    ensures Abstract(d, m[k := it], now) == Abstract(d, m, now)[k := EntryOf(d, it)]
  {
  }

  lemma AbstractDrop(d: Driver, m: Items, now: int, k: string)
    ensures Abstract(d, m - {k}, now) == Abstract(d, m, now) - {k}
  {
  }

  /** The abstract map at one key. */
  lemma AbstractAt(d: Driver, m: Items, now: int, k: string)
    ensures k in Abstract(d, m, now) <==> Has(d, m, now, k)
    ensures Has(d, m, now, k) ==> Abstract(d, m, now)[k] == EntryOf(d, m[k])
    ensures !Has(d, m, now, k) ==> Abstract(d, m, now) - {k} == Abstract(d, m, now)
  {
  }

  lemma IncrementSimulates(d: Driver, m: Items, now: int, k: string, delta: int)
    ensures Simulates(d, m, now, Increment(k, delta)) <==> Faithful(d, m, now, Increment(k, delta))
  {
    AbstractAt(d, m, now, k);
    ZeroIsANumber(delta);
    CountedSimulates(d, m, now, k, if Has(d, m, now, k) then Sum(m[k].value, delta) else Sum("0", delta));
  }

  lemma ZeroIsANumber(delta: int)
    ensures Sum("0", delta).Some? && Sum("0", delta).value.n == Wrap64(delta)
  {
  }

  lemma CountedSimulates(d: Driver, m: Items, now: int, k: string, sum: Option<Total>)
    ensures var (m', answer) := Counted(d, m, now, k, sum);
            (Abstract(d, m', now), answer) == IdealCounted(Abstract(d, m, now), k, sum)
  {
    AbstractAt(d, m, now, k);
    if sum.Some? {
      AbstractPut(d, m, now, k, Item(sum.value.text, if Has(d, m, now, k) then m[k].expiry else None));
    }
  }

  lemma ExpireSimulates(d: Driver, m: Items, now: int, k: string, ttl: int)
    ensures Simulates(d, m, now, Expire(k, ttl)) <==> Faithful(d, m, now, Expire(k, ttl))
  {
    AbstractAt(d, m, now, k);
    AbstractDrop(d, m, now, k);
    if ttl > 0 && k in m {
      var it := m[k].(expiry := Some(Stamp(d, now, ttl)));
      StampIsLive(d, now, ttl, it.value);
      AbstractPut(d, m, now, k, it);
    }
  }

  lemma SetSimulates(d: Driver, m: Items, now: int, k: string, v: string, ttl: int)
    ensures Simulates(d, m, now, Set(k, v, ttl))
  {
    var it := Item(v, if ttl > 0 then Some(Stamp(d, now, ttl)) else None);
    if ttl > 0 { StampIsLive(d, now, ttl, v); }
    AbstractPut(d, m, now, k, it);
  }

  /** Both drivers carry out the contract on every operation but exactly the two above. */
  lemma SimulatesIffFaithful(d: Driver, m: Items, now: int, op: Op)
    ensures Simulates(d, m, now, op) <==> Faithful(d, m, now, op)
  {
    match op
    case Set(k, v, ttl) => SetSimulates(d, m, now, k, v, ttl);
    case Increment(k, delta) => IncrementSimulates(d, m, now, k, delta);
    case Expire(k, ttl) => ExpireSimulates(d, m, now, k, ttl);
    case Get(k) => AbstractAt(d, m, now, k);
    case Delete(k) => AbstractDrop(d, m, now, k);
    case GetDelete(k) =>
      AbstractAt(d, m, now, k);
      AbstractDrop(d, m, now, k);
  }

  /** Time alone changes a store exactly as it changes the abstract map. */
  lemma ElapseSimulates(d: Driver, m: Items, now: int, later: int)
    requires now <= later
    ensures Abstract(d, m, later) == Elapse(Abstract(d, m, now), later)
  {
  }

  datatype Call = Call(at: int, op: Op)

  predicate Ordered(now: int, calls: seq<Call>) {
    forall i | 0 <= i < |calls| :: now <= calls[i].at && forall j | i <= j < |calls| :: calls[i].at <= calls[j].at
  }

  predicate FaithfulRun(d: Driver, m: Items, calls: seq<Call>)
    decreases |calls|
  {
    calls == [] || (Faithful(d, m, calls[0].at, calls[0].op)
                    && FaithfulRun(d, Perform(d, m, calls[0].at, calls[0].op).0, calls[1..]))
  }

  function Answers(d: Driver, m: Items, calls: seq<Call>): seq<Answer>
    decreases |calls|
  {
    if calls == [] then []
    else var (m', answer) := Perform(d, m, calls[0].at, calls[0].op); [answer] + Answers(d, m', calls[1..])
  }

  function IdealAnswers(d: Driver, a: TtlMap, calls: seq<Call>): seq<Answer>
    decreases |calls|
  {
    if calls == [] then []
    else
      var (a', answer) := Ideal(Elapse(a, calls[0].at), calls[0].op, Until(d, calls[0].at, calls[0].op));
      [answer] + IdealAnswers(d, a', calls[1..])
  }

  /** Over any sequence of calls in time order, a driver answers as the TTL map does. */
  lemma {:induction false} RunSimulates(d: Driver, m: Items, now: int, calls: seq<Call>)
    requires Ordered(now, calls) && FaithfulRun(d, m, calls)
    ensures Answers(d, m, calls) == IdealAnswers(d, Abstract(d, m, now), calls)
    decreases |calls|
  {
    if calls != [] {
      var c := calls[0];
      ElapseSimulates(d, m, now, c.at);
      SimulatesIffFaithful(d, m, c.at, c.op);
      RunSimulates(d, Perform(d, m, c.at, c.op).0, c.at, calls[1..]);
    }
  }

  /** No call of the run, on that key, can store anything under it. */
  predicate NeverStores(calls: seq<Call>, k: string) {
    forall c | c in calls :: c.op.k == k ==> !c.op.Set? && !c.op.Increment?
  }

  lemma {:induction false} NothingFound(d: Driver, m: Items, k: string, calls: seq<Call>, i: nat)
    requires k !in m && NeverStores(calls, k)
    requires i < |calls| && calls[i].op.k == k
    ensures |Answers(d, m, calls)| == |calls| && !Answers(d, m, calls)[i].Found?
    decreases |calls|
  {
    var m' := Perform(d, m, calls[0].at, calls[0].op).0;
    assert calls[0] in calls;
    AnswersLength(d, m', calls[1..]);
    if i > 0 {
      NothingFound(d, m', k, calls[1..], i - 1);
    }
  }

  /**
   Single use, in any run of either driver: after a GetDelete that handed a value out, no
   later call hands anything out under its key until something is stored there again.
   */
  lemma {:induction false} HandedOutOnce(d: Driver, m: Items, calls: seq<Call>, i: nat, j: nat)
    requires i < j < |calls| && calls[i].op.GetDelete? && calls[j].op.k == calls[i].op.k
    requires |Answers(d, m, calls)| == |calls| && Answers(d, m, calls)[i].Found?
    requires NeverStores(calls[i + 1..j], calls[i].op.k)
    requires !calls[j].op.Set? && !calls[j].op.Increment?
    ensures !Answers(d, m, calls)[j].Found?
    decreases |calls|
  {
    var m' := Perform(d, m, calls[0].at, calls[0].op).0;
    var rest := calls[1..];
    AnswersLength(d, m', rest);
    if i == 0 {
      var upto := rest[..j];
      AnswersPrefix(d, m', rest, j);
      assert upto == calls[1..j] + [calls[j]];
      assert NeverStores(upto, calls[0].op.k);
      NothingFound(d, m', calls[0].op.k, upto, j - 1);
    } else {
      assert rest[i..j - 1] == calls[i + 1..j];
      HandedOutOnce(d, m', rest, i - 1, j - 1);
    }
  }

  lemma {:induction false} AnswersPrefix(d: Driver, m: Items, calls: seq<Call>, n: nat)
    requires n <= |calls|
    ensures Answers(d, m, calls[..n]) <= Answers(d, m, calls)
    decreases |calls|
  {
    if n > 0 {
      assert calls[..n][1..] == calls[1..][..n - 1];
      AnswersPrefix(d, Perform(d, m, calls[0].at, calls[0].op).0, calls[1..], n - 1);
    }
  }

  lemma {:induction false} AnswersLength(d: Driver, m: Items, calls: seq<Call>)
    ensures |Answers(d, m, calls)| == |calls|
    decreases |calls|
  {
    if calls != [] {
      AnswersLength(d, Perform(d, m, calls[0].at, calls[0].op).0, calls[1..]);
    }
  }

  /**
   How long an entry lives: in memory its ttl to the nanosecond, in the database within
   one second of it either way, and never forever.
   */
  lemma LifetimeNearTtl(d: Driver, now: int, ttl: int)
    requires 0 <= now && 0 < ttl
    ensures var lifetime := Deadline(d, Stamp(d, now, ttl)) - now;
            match d
            case Memory => lifetime == ttl + 1
            case Database => ttl - SECOND < lifetime < ttl + SECOND && Stamp(d, now, ttl) != 0
  {
  }

  /**
   A key set at one instant is found at a later one, and handed out by GetDelete, exactly until
   its deadline; without a ttl it is found at any time, and once deleted never.
   */
  lemma FoundUntilDeadline(d: Driver, m: Items, setAt: int, k: string, v: string, ttl: int, now: int)
    ensures var m' := Perform(d, m, setAt, Set(k, v, ttl)).0;
            var expected := if ttl <= 0 || now < Deadline(d, Stamp(d, setAt, ttl)) then Found(v) else NotFound;
            && Perform(d, m', now, Get(k)).1 == expected
            && Perform(d, m', now, GetDelete(k)).1 == expected
            && forall later :: Perform(d, Perform(d, m', now, Delete(k)).0, later, Get(k)).1 == NotFound
  {
  }

  /** A live counter answers its number plus the delta and keeps its date; any other starts from zero without one. */
  lemma IncrementCounts(d: Driver, m: Items, now: int, k: string, delta: int)
    requires MIN_INT64 <= delta <= MAX_INT64
    requires Has(d, m, now, k) ==>
               Atoi(m[k].value).Some? && MIN_INT64 <= Atoi(m[k].value).value + delta <= MAX_INT64
    ensures var (m', answer) := Perform(d, m, now, Increment(k, delta));
            && answer == Count(if Has(d, m, now, k) then Atoi(m[k].value).value + delta else delta)
            && k in m' && m'[k].expiry == (if Has(d, m, now, k) then m[k].expiry else None)
  {
    ZeroIsANumber(delta);
  }
}
