/** The two cache drivers as the source writes them, each over its own store. */
module Cache {
  import opened Common
  import opened Clock
  import opened Strconv
  import opened CacheDrivers

  /** ParseInt, add, FormatInt; None when the text is not a number. */
  method Add(value: string, delta: int) returns (total: Option<Total>)
    ensures total == Sum(value, delta)
  {
    var parsed := Atoi(value);
    if parsed.None? {
      return None;
    }
    var n := Wrap64(parsed.value + delta);
    return Some(Total(n, FormatInt(n)));
  }

  /** The same with anything that is not a number, the empty text included, taken as zero. */
  method AddOrRestart(value: string, delta: int) returns (total: Total)
    ensures value == "" ==> Sum("0", delta) == Some(total)
    ensures Some(total) == if Sum(value, delta).None? then Sum("0", delta) else Sum(value, delta)
  {
    ZeroIsANumber(delta);
    var sum := Add(value, delta);
    if sum.None? {
      sum := Add("0", delta);
    }
    return sum.value;
  }

  class MemoryCache {
    var items: Items

    constructor ()
      ensures items == map[]
    {
      items := map[];
    }

    method Get(k: string, now: int) returns (r: Option<string>)
      ensures Perform(Memory, items, now, Op.Get(k)) == (items, if r.Some? then Found(r.value) else NotFound)
    {
      if k !in items || (items[k].expiry.Some? && now > items[k].expiry.value) {
        return None;
      }
      return Some(items[k].value);
    }

    method Set(k: string, v: string, ttl: int, now: int)
      modifies this`items
      ensures items == Perform(Memory, old(items), now, Op.Set(k, v, ttl)).0
    {
      var item := Item(v, None);
      if ttl > 0 {
        item := item.(expiry := Some(now + ttl));
      }
      items := items[k := item];
    }

    method Delete(k: string)
      modifies this`items
      ensures items == old(items) - {k}
    {
      items := items - {k};
    }

    method GetDelete(k: string, now: int) returns (r: Option<string>)
      modifies this`items
      ensures Perform(Memory, old(items), now, Op.GetDelete(k)) == (items, if r.Some? then Found(r.value) else NotFound)
    {
      if k !in items || (items[k].expiry.Some? && now > items[k].expiry.value) {
        items := items - {k};
        return None;
      }
      var v := items[k].value;
      items := items - {k};
      return Some(v);
    }

    method Increment(k: string, delta: int, now: int) returns (n: int)
      modifies this`items
      ensures Perform(Memory, old(items), now, Op.Increment(k, delta)) == (items, Count(n))
    {
      var item := if k in items then items[k] else Item("", None);
      if item.expiry.Some? && now > item.expiry.value {
        items := items - {k};
        item := Item("", None);
      }
      var total := AddOrRestart(item.value, delta);
      items := items[k := item.(value := total.text)];
      assert items == old(items)[k := item.(value := total.text)];
      return total.n;
    }

    method Expire(k: string, ttl: int, now: int)
      modifies this`items
      ensures items == Perform(Memory, old(items), now, Op.Expire(k, ttl)).0
    {
      if ttl <= 0 {
        items := items - {k};
        return;
      }
      if k !in items {
        return;
      }
      items := items[k := items[k].(expiry := Some(now + ttl))];
    }
  }

  /** A row of the cache table; expiration is in Unix seconds, 0 for never. */
  datatype Row = Row(value: string, expiration: int)

  function ItemOf(r: Row): Item { Item(r.value, if r.expiration == 0 then None else Some(r.expiration)) }

  function ItemsOf(rows: map<string, Row>): Items { map k | k in rows :: ItemOf(rows[k]) }

  lemma ItemsOfPut(rows: map<string, Row>, k: string, r: Row)
    ensures ItemsOf(rows[k := r]) == ItemsOf(rows)[k := ItemOf(r)]
    ensures ItemsOf(rows - {k}) == ItemsOf(rows) - {k}
  {
  }

  class DatabaseCache {
    var rows: map<string, Row>

    constructor ()
      ensures rows == map[]
    {
      rows := map[];
    }

    /** WHERE cache_key = ? AND (expiration = 0 OR expiration > now). */
    predicate Selects(k: string, now: int)
      reads this
      ensures Selects(k, now) <==> Has(Database, ItemsOf(rows), now, k)
    {
      k in rows && (rows[k].expiration == 0 || rows[k].expiration > Unix(now))
    }

    method Get(k: string, now: int) returns (r: Option<string>)
      ensures Perform(Database, ItemsOf(rows), now, Op.Get(k)) ==
                (ItemsOf(rows), if r.Some? then Found(r.value) else NotFound)
    {
      if Selects(k, now) {
        return Some(rows[k].value);
      }
      return None;
    }

    method Set(k: string, v: string, ttl: int, now: int)
      requires 0 <= now
      modifies this`rows
      ensures ItemsOf(rows) == Perform(Database, ItemsOf(old(rows)), now, Op.Set(k, v, ttl)).0
    {
      var expiration := 0;
      if ttl > 0 {
        expiration := Unix(now) + CeilSeconds(ttl);
      }
      ItemsOfPut(rows, k, Row(v, expiration));
      rows := rows[k := Row(v, expiration)];
    }

    method Delete(k: string)
      modifies this`rows
      ensures ItemsOf(rows) == ItemsOf(old(rows)) - {k}
    {
      ItemsOfPut(rows, k, Row("", 0));
      rows := rows - {k};
    }

    method GetDelete(k: string, now: int) returns (r: Option<string>)
      modifies this`rows
      ensures Perform(Database, ItemsOf(old(rows)), now, Op.GetDelete(k)) ==
                (ItemsOf(rows), if r.Some? then Found(r.value) else NotFound)
    {
      if !Selects(k, now) {
        return None;
      }
      var v := rows[k].value;
      ItemsOfPut(rows, k, Row("", 0));
      rows := rows - {k};
      return Some(v);
    }

    /**
     Seed, locking read, update. The seed never touches an existing row; the read does
     not see an expired one, so its counter starts over without an expiry; text that is
     not a number rolls the transaction back.
     */
    method Increment(k: string, delta: int, now: int) returns (n: Option<int>)
      modifies this`rows
      ensures Perform(Database, ItemsOf(old(rows)), now, Op.Increment(k, delta)) ==
                (ItemsOf(rows), if n.Some? then Count(n.value) else BadNumber)
    {
      var before := rows;
      if k !in rows {
        rows := rows[k := Row("0", 0)];
      }
      var current: Option<string>, expiration := None, 0;
      if Selects(k, now) {
        current, expiration := Some(rows[k].value), rows[k].expiration;
      }
      var total := Add(if current.Some? then current.value else "0", delta);
      if total.None? {
        ZeroIsANumber(delta);
        rows := before;
        return None;
      }
      if current.None? {
        expiration := 0;
      }
      var row := Row(total.value.text, expiration);
      ItemsOfPut(before, k, row);
      rows := rows[k := row];
      assert rows == before[k := row];
      return Some(total.value.n);
    }

    method Expire(k: string, ttl: int, now: int)
      requires 0 <= now
      modifies this`rows
      ensures ItemsOf(rows) == Perform(Database, ItemsOf(old(rows)), now, Op.Expire(k, ttl)).0
    {
      if ttl <= 0 {
        Delete(k);
        return;
      }
      var expiration := Unix(now) + CeilSeconds(ttl);
      if k in rows {
        ItemsOfPut(rows, k, rows[k].(expiration := expiration));
        rows := rows[k := rows[k].(expiration := expiration)];
      }
    }
  }
}

/** The sliding-window limiters built on Increment and Expire. */
module RateLimiter {
  import opened Common
  import opened Strconv
  import opened CacheDrivers
  import opened Cache

  /** One call on a key. A check reads the clock twice: to increment, then to re-date. */
  datatype Event = Check(at: int, until: int) | Reset(at: int)

  predicate InOrder(h: seq<Event>) {
    && (forall i | 0 <= i < |h| && h[i].Check? :: h[i].at <= h[i].until)
    && (forall i, j | 0 <= i < j < |h| :: (if h[i].Check? then h[i].until else h[i].at) <= h[j].at)
  }

  /** Whether a counter re-dated at one instant has run out by a later one. */
  predicate Lapsed(d: Driver, dated: int, now: int, window: int) {
    window <= 0 || now >= Deadline(d, Stamp(d, dated, window))
  }

  /** The limiter's two cache calls. */
  function AfterCheck(d: Driver, m: Items, k: string, e: Event, window: int): (Items, Answer)
    requires e.Check?
  {
    var (counted, answer) := Perform(d, m, e.at, Increment(k, 1));
    (Perform(d, counted, e.until, Expire(k, window)).0, answer)
  }

  function After(d: Driver, k: string, window: int, h: seq<Event>): Items {
    if h == [] then map[]
    else
      var m := After(d, k, window, h[..|h| - 1]);
      match h[|h| - 1]
      case Check(at, until) => AfterCheck(d, m, k, Check(at, until), window).0
      case Reset(_) => m - {k}
  }

  /** e continues the burst that the check before it belongs to. */
  predicate Continues(d: Driver, window: int, h: seq<Event>, i: nat)
    requires i < |h|
  {
    h[i].Check? && i > 0 && h[i - 1].Check? && !Lapsed(d, h[i - 1].until, h[i].at, window)
  }

  /** The number of checks since the last reset or the last gap longer than the window. */
  function Burst(d: Driver, window: int, h: seq<Event>): nat {
    if h == [] || h[|h| - 1].Reset? then 0
    else if Continues(d, window, h, |h| - 1) then 1 + Burst(d, window, h[..|h| - 1])
    else 1
  }

  /** Burst is the length of the longest unbroken run of checks that ends the history. */
  lemma {:induction false} BurstMeaning(d: Driver, window: int, h: seq<Event>)
    ensures var n := Burst(d, window, h);
            && n <= |h|
            && (forall i | |h| - n <= i < |h| :: h[i].Check?)
            && (forall i | |h| - n < i < |h| :: !Lapsed(d, h[i - 1].until, h[i].at, window))
            && (n < |h| && n > 0 ==> !Continues(d, window, h, |h| - n))
            && (n == 0 <==> h == [] || h[|h| - 1].Reset?)
    decreases |h|
  {
    if h != [] && h[|h| - 1].Check? && Continues(d, window, h, |h| - 1) {
      var front := h[..|h| - 1];
      BurstMeaning(d, window, front);
      var n := Burst(d, window, front);
      assert n < |front| ==> Continues(d, window, front, |front| - n) == Continues(d, window, h, |front| - n);
    }
  }

  /** What the store holds for the key: the burst so far, dated by its last check. */
  predicate Tracks(d: Driver, m: Items, k: string, window: int, h: seq<Event>) {
    if h == [] || h[|h| - 1].Reset? || window <= 0 then k !in m
    else
      && k in m
      && Atoi(m[k].value) == Some(Burst(d, window, h))
      && m[k].expiry == Some(Stamp(d, h[|h| - 1].until, window))
  }

  lemma OneMore(value: string, n: int)
    requires Atoi(value) == Some(n - 1) && 1 <= n <= MAX_INT64
    ensures Sum(value, 1) == Some(Total(n, FormatInt(n))) && Atoi(FormatInt(n)) == Some(n)
  {
  }

  lemma AfterCheckIs(d: Driver, m: Items, k: string, e: Event, window: int, total: Total)
    requires e.Check?
    requires (if Has(d, m, e.at, k) then Sum(m[k].value, 1) else Sum("0", 1)) == Some(total)
    ensures var m' := if window <= 0 then m - {k} else m[k := Item(total.text, Some(Stamp(d, e.until, window)))];
            AfterCheck(d, m, k, e, window) == (m', Count(total.n))
  {
    var it := Item(total.text, if Has(d, m, e.at, k) then m[k].expiry else None);
    assert Perform(d, m, e.at, Increment(k, 1)) == (m[k := it], Count(total.n));
    assert m[k := it] - {k} == m - {k};
    var dated := Item(total.text, Some(Stamp(d, e.until, window)));
    assert m[k := it][k := dated] == m[k := dated];
  }

  lemma CheckTracks(d: Driver, m: Items, k: string, window: int, h: seq<Event>, e: Event)
    requires Tracks(d, m, k, window, h) && InOrder(h + [e]) && e.Check?
    requires |h| < MAX_INT64
    ensures Tracks(d, AfterCheck(d, m, k, e, window).0, k, window, h + [e])
    ensures AfterCheck(d, m, k, e, window).1 == Count(Burst(d, window, h + [e]))
  {
    BurstMeaning(d, window, h);
    var h' := h + [e];
    assert h'[..|h'| - 1] == h;
    assert h != [] ==> h'[|h'| - 2] == h[|h| - 1];
    var n := Burst(d, window, h');
    assert Has(d, m, e.at, k) <==> Continues(d, window, h', |h'| - 1);
    if Has(d, m, e.at, k) {
      OneMore(m[k].value, n);
    } else {
      AtoiZero();
      OneMore("0", n);
    }
    AfterCheckIs(d, m, k, e, window, Total(n, FormatInt(n)));
  }

  lemma AtoiZero()
    ensures Atoi("0") == Some(0)
  {
  }

  lemma {:induction false} StoreTracks(d: Driver, k: string, window: int, h: seq<Event>)
    requires InOrder(h) && |h| <= MAX_INT64
    ensures Tracks(d, After(d, k, window, h), k, window, h)
    decreases |h|
  {
    if h != [] {
      var front, e := h[..|h| - 1], h[|h| - 1];
      assert front + [e] == h;
      StoreTracks(d, k, window, front);
      if e.Check? {
        CheckTracks(d, After(d, k, window, front), k, window, front, e);
      }
    }
  }

  /**
   The limiter refines a function of history: under either driver, for any window, a
   check is let through exactly when the checks of its burst, itself and the rejected
   ones included, number at most max.
   */
  lemma CheckRefinesHistory(d: Driver, k: string, window: int, h: seq<Event>, e: Event, max: int)
    requires InOrder(h + [e]) && e.Check? && |h| < MAX_INT64
    ensures var answer := AfterCheck(d, After(d, k, window, h), k, e, window).1;
            answer.Count? && (answer.n <= max <==> Burst(d, window, h + [e]) <= max)
  {
    assert (h + [e])[..|h|] == h;
    forall i, j | 0 <= i < j < |h| ensures (if h[i].Check? then h[i].until else h[i].at) <= h[j].at {
      assert (h + [e])[i] == h[i] && (h + [e])[j] == h[j];
    }
    forall i | 0 <= i < |h| && h[i].Check? ensures h[i].at <= h[i].until {
      assert (h + [e])[i] == h[i];
    }
    StoreTracks(d, k, window, h);
    CheckTracks(d, After(d, k, window, h), k, window, h, e);
  }

  method CheckInMemory(cache: MemoryCache, k: string, max: int, window: int, at: int, until: int)
    returns (accepted: bool)
    modifies cache`items
    ensures cache.items == AfterCheck(Memory, old(cache.items), k, Check(at, until), window).0
    ensures exists n ::
              && AfterCheck(Memory, old(cache.items), k, Check(at, until), window).1 == Count(n)
              && (accepted <==> n <= max)
  {
    var n := cache.Increment(k, 1, at);
    cache.Expire(k, window, until);
    return n <= max;
  }

  method CheckInDatabase(cache: DatabaseCache, k: string, max: int, window: int, at: int, until: int)
    returns (accepted: Option<bool>)
    requires 0 <= at <= until
    modifies cache`rows
    ensures accepted.None? ==> ItemsOf(cache.rows) == ItemsOf(old(cache.rows))
    ensures accepted.Some? ==>
              && ItemsOf(cache.rows) == AfterCheck(Database, ItemsOf(old(cache.rows)), k, Check(at, until), window).0
              && exists n :: AfterCheck(Database, ItemsOf(old(cache.rows)), k, Check(at, until), window).1 == Count(n)
                             && (accepted.value <==> n <= max)
  {
    var n := cache.Increment(k, 1, at);
    if n.None? {
      return None;
    }
    cache.Expire(k, window, until);
    return Some(n.value <= max);
  }
}
